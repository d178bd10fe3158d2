# Verified model of the Forgotten Engine's world state, codecs and inventories

This Dafny project models the parts of the engine that change authoritative state or decode bytes, and proves
what they keep, invert and conserve. `dafny verify dfyconfig.toml` verifies the whole project.

| files | part of the engine |
|---|---|
| `Framing`, `TileStream`, `TileMeaning` | the escaped node framing of OTB and OTBM files, and the attribute streams of tiles and items inside it |
| `Creatures`, `Detour`, `Respawn`, `Restart`, `Follow`, `WorldRules`, `Lifetimes`, `World`, `Runs`, `RestartRuns` | static creatures with their cached occupancy, the players that move among them, runs of all their commands, and restarts after them |
| `Party`, `PartyLaws`, `PartyRoles`, `PartyBook`, `PartySharing` | leaders, memberships, invitations and shared experience |
| `ContainerDiff`, `WindowRecords` | the slot deltas that keep a client's container windows up to date |
| `Items`, `Bags`, `Transfers`, `Placement`, `Inventories`, `Bank`, `Trade`, `Offers`, `TradeExecution`, `Deliveries`, `TradeBook`, `TradeRuns` | stacks, inventories, banking keywords, trades and runs of trade commands |
| `Conditions`, `Heartbeats` | timed damage |
| `Stages`, `StageTable`, `StageEntries`, `StageReader` | experience stages and their configuration table |
| `Prelude`, `Geometry` | machine-width integers, results, ordered keys, map coordinates |

State that the engine changes in place is a class (`World`, `PartyBook`, `Session`, `Book`, `Teller`, `TradeBook`,
`Sufferer`, `Cursor`, `Reader`); each of its methods is proved against a specification on values, and the laws are
lemmas about those values, down to statements about the bytes and states themselves. Every error is one `Err` case.
Machine integers are subset types, and saturation, caps and wrap-around are written out. Ordered maps and sets are
visited in ascending key order.

Where the code and its comments differ, the model follows the code:

- A summon's tile has to be free of players and active creatures; it need not be walkable
  (`crates/forgotten-core/src/world_static.rs:80-81` says it must be). `WorldRules.CanSummon` has no such condition.
- A snapshot writes a melee interval for waiting creatures, which no restore accepts if the booted world knows them:
  `Restart.RestartRoundTrip`, `RestartRuns.WaitingRatIsRefused`. It also writes summons and whoever stands on the origin,
  which a restore skips: `RestartRuns.SummonIsNotResumed`, `RestartRuns.WokenTemplateIsNotResumed`.
- Installs do not check that creatures stand apart: `WorldRules.InstallPlacesApart`, `Creatures.SharedTileBreaksThePlan`.
- A raw player move does not look at other players: `Worlds.World.MovePlayer`.
- The survivor of a two-person party leads nobody: `PartyLaws.HollowAfterLeaderLeaves`, `PartyLaws.SurvivorLeadsNobody`.
- A member added directly keeps his invitations: `Parties.AddingKeepsInv`. Once he leads the party and goes offline, its last
  member is left without one: `PartyRoles.LowestMemberSucceedsOffline`, `PartyRoles.OnlyMemberIsLeftWithoutParty`.
- A block inserted before the tail of a window is appended by the client: `ContainerDiff.DeltaReplays`,
  `ContainerDiff.InsertedInFrontIsShownBehind`. A window that becomes renderable, or whose own item is not mapped, is
  adopted without a record: `ContainerDiff.OneWindowReplays`.
- Merging drops the contents of the incoming item and splitting copies them: `Items.StackingAdds`,
  `Items.SplittingCopiesContents`, `Transfers.SplittingCopiesTheCoins`, `TradeExecution.ArrivingPurseSpills`. Moving
  content to a nested container fails but loses the item: `Transfers.FailureChangesNothing`,
  `Transfers.MovingToNestedLosesTheCoins`.
- A deposit on a full balance takes the coins: `Bank.FullBalanceSwallowsTheDeposit`.
- A trade's counterparty may change its own offer without losing its acceptance, indices staged in ascending order hand
  over other slots, and a delivery without room is not rolled back: `Trade.FlagsAreStandingConsent`,
  `Trade.FaithfulExactlyIfDescending`, `Trade.AscendingHandsOverAnother`, `TradeExecution.TradesAreAccountedFor`.
- A persisted haste with progress is loaded with its progress beyond its interval, which its next second
  forgets: `Conditions.PersistedProgress`, `Conditions.LoadedHasteIsAhead`.

## Model

| member | source | states |
|---|---|---|
| Framing.ReadFramedByte | crates/forgotten-config/src/items.rs:507-525 | reads a node type, escaped or not, and moves past exactly it; refuses a bare reserved byte and the end of input |
| Framing.TakeToken | crates/forgotten-config/src/otbm.rs:218-262 | one turn of the loop takes one token of the scanner `Token`, or fails where it does |
| Framing.ParseTree | crates/forgotten-config/src/otbm.rs:212-273 | the explicit-stack loop computes the scanner `Parse`, for any depth and node limits |
| Framing.ParsesExactlyTheWrittenTrees | crates/forgotten-config/src/otbm.rs:212-273 | an input parses to a tree if and only if it is some written form of it within the limits: properties and children in any interleaving, escapes on any byte |
| Framing.ParseWritten | crates/forgotten-config/src/items.rs:444-505 | every written form parses to what it means, and fails exactly beyond the depth and node limits |
| Framing.FramingRoundTrip | crates/forgotten-config/src/otbm.rs:579-592 | parse(print(t)) = t for every tree within the limits, reserved kinds and properties included; an error for every other tree |
| Framing.FramingNormalForm | crates/forgotten-config/src/otbm.rs:212-273 | any accepted input, reprinted, parses to the same tree and is no longer than the input |
| Framing.NoShorterForm | crates/forgotten-config/src/otbm.rs:579-592 | no written form of a tree is shorter than its printed form |
| Framing.FramingIsPrefixFree | crates/forgotten-config/src/otbm.rs:212-273 | no accepted input is a strict prefix of another accepted input |
| Framing.BytesSpellTrees | crates/forgotten-config/src/otbm.rs:212-273 | byte by byte: start 254, escape 253, end 255; properties and children come out in the order they are written |
| TileStream.Cursor.ReadByte | crates/forgotten-config/src/otbm.rs:95-103 | one byte from the front of the rest, or an error |
| TileStream.Cursor.ReadWord | crates/forgotten-config/src/otbm.rs:105-116 | a little-endian 16-bit number |
| TileStream.Cursor.ReadLong | crates/forgotten-config/src/otbm.rs:118-129 | a little-endian 32-bit number |
| TileStream.Cursor.ReadPosition | crates/forgotten-config/src/otbm.rs:131-137 | two words and a byte |
| TileStream.Cursor.ReadText | crates/forgotten-config/src/otbm.rs:139-155 | a length-prefixed text that has to be valid UTF-8 |
| TileStream.ReadAttribute | crates/forgotten-config/src/otbm.rs:443-524 | one attribute applied to the item, or skipped by its width: what `GetAttr` and `Apply` say, and `TileMeaning.ItemsMeanWhatTheySay` says what that is |
| TileStream.ParseItemPayload | crates/forgotten-config/src/otbm.rs:443-524 | the attribute loop equals the decoder `GetItem`, whose answer `TileMeaning.ItemsMeanWhatTheySay` states on the bytes, and stops in front of the next tile property |
| TileStream.GetPutAttrs | crates/forgotten-config/src/otbm.rs:443-524 | decoding encoded attributes gives the item they describe and leaves exactly what follows; no attribute is mistaken for the next tile property |
| TileStream.PutGetAttrs | crates/forgotten-config/src/otbm.rs:443-524 | whatever the attribute loop accepts is the encoding of legal attributes, stopped at a boundary |
| TileStream.SkippedAttributesDoNotMatter | crates/forgotten-config/src/otbm.rs:443-524 | leaving out the skipped attributes gives the same item |
| TileStream.ParseTileProperties | crates/forgotten-config/src/otbm.rs:379-390 | the property loop equals the decoder `GetProps` |
| TileStream.GetPutProps | crates/forgotten-config/src/otbm.rs:379-390 | decoding encoded flags and inline items gives the same flags and items |
| TileStream.PutGetProps | crates/forgotten-config/src/otbm.rs:379-390 | whatever the property loop accepts is the encoding of legal properties |
| TileStream.ParseItemNode | crates/forgotten-config/src/otbm.rs:429-441 | decodes an item node with nested item nodes |
| TileStream.GetPutItemNode | crates/forgotten-config/src/otbm.rs:429-441 | nested item trees come back, to any depth |
| TileStream.PutGetItemNode | crates/forgotten-config/src/otbm.rs:429-441 | every accepted item node is the encoding of a legal item tree |
| TileStream.ReadHouse | crates/forgotten-config/src/otbm.rs:372-376 | a house tile carries a house number, whatever it is, and other tiles none; zero is refused later, in `ParseTile` |
| TileStream.ParseTile | crates/forgotten-config/src/otbm.rs:361-427 | corner, house number, properties and item nodes of one tile |
| TileStream.DecodesExactlyTheWrittenTiles | crates/forgotten-config/src/otbm.rs:361-427 | a tile node decodes to a placed tile if and only if it is the encoding of a legal tile that stands for it (at most 64 items, offsets within range) |
| TileStream.ParseTileArea | crates/forgotten-config/src/otbm.rs:341-359 | decodes the tiles of an area in order, other children refused |
| TileStream.DecodesExactlyTheWrittenAreas | crates/forgotten-config/src/otbm.rs:341-427 | an area node decodes to a list of placed tiles if and only if it is the encoding of a base position and legal tiles that stand for them |
| TileStream.AreaBytesRoundTrip | crates/forgotten-config/src/otbm.rs:341-427 | through both layers: the bytes of an area parse to its node, and the node decodes to its tiles |
| TileMeaning.ItemsMeanWhatTheySay | crates/forgotten-config/src/otbm.rs:443-524 | the payload decoder answers an item if and only if the bytes are an identifier and entries of the width of their codes (written as numbers), up to a boundary, and every field is that of the last entry with its code: 4 action, 5 unique, 6 text, 7 description, 8 teleport, 12 or 22 charges, 15 count with 0 as 1, 16 duration; without one it is bare |
| TileMeaning.PropertiesMeanWhatTheySay | crates/forgotten-config/src/otbm.rs:379-390 | the property loop accepts exactly flags (code 3) and inline items (code 9), and gathers the last flags and every item in order |
| TileMeaning.NodeMeansWhatItSays | crates/forgotten-config/src/otbm.rs:429-441 | an item node decodes to an item if and only if its properties say it and its children, of kind 6, say its contents, in order and to any depth |
| TileMeaning.TilesMeanWhatTheySay | crates/forgotten-config/src/otbm.rs:361-427 | a tile node decodes to a placed tile if and only if its bytes say so: base plus two offsets within range, four bytes of nonzero house exactly on kind 14, the last flags, inline items below the child items, at most 64 |
| TileMeaning.AreasMeanWhatTheySay | crates/forgotten-config/src/otbm.rs:341-427 | an area node decodes to placed tiles if and only if its properties are five bytes of base and its children, of kind 5 or 14, say these tiles in order |
| TileMeaning.TextsAreEncodedScalars | crates/forgotten-config/src/otbm.rs:139-155 | the bytes accepted as a text are exactly the UTF-8 encodings of sequences of Unicode scalar values |
| Detour.DetourDirection | crates/forgotten-core/src/world_static.rs:944-992 | the breadth-first search answers with a direction exactly when a route within the limit reaches a tile beside the target, and then with the first step of a shortest one, lowest direction first; it terminates |
| Detour.FirstHop | crates/forgotten-core/src/world_static.rs:935-992 | the first step of a route leads to a walkable, free tile |
| Geometry.StepsAreOpposite | crates/forgotten-core/src/lib.rs:92-105 | north and south change y, east and west x, by one tile; the opposite step leads back |
| Geometry.DirectionsGoClockwise | crates/forgotten-core/src/world_static.rs:1005-1010 | the directions go clockwise from north, in the order in which they are tried |
| Geometry.StepFailsAtTheEdge | crates/forgotten-core/src/lib.rs:92-105 | a step fails exactly at the edge of the coordinate range that it leads to |
| Geometry.EightAreAdjacent | crates/forgotten-core/src/lib.rs:85-90 | exactly the eight tiles around a tile are adjacent to it |
| Creatures.MoveUpdatesTiles | crates/forgotten-core/src/world_static.rs:1308-1346 | a move takes its old tile out of the occupied set and puts the new one in, and keeps creatures apart |
| Creatures.RotatedAt | crates/forgotten-core/src/world_static.rs:1005-1032 | the k-th direction tried, from a starting direction that changes with creature and clock |
| Creatures.TurnIsSerial | crates/forgotten-core/src/world_static.rs:997-1047 | a creature's turn in the planner is what the creature would do at once |
| Creatures.PickMeans | crates/forgotten-core/src/world_static.rs:1005-1032 | a creature's pick: none exactly if each of the four sides is impassable; a direction exactly if its side is passable and no side with fewer quarter turns from the starting direction is |
| Creatures.SkippedExactlyIfBlocked | crates/forgotten-core/src/world_static.rs:997-1047 | in its turn an active creature is skipped exactly if all four sides are blocked, and otherwise decided in the first passable direction |
| Creatures.PlanDecidesInTurn | crates/forgotten-core/src/world_static.rs:997-1047 | in a plan each active creature is decided or skipped so, against the tiles as the earlier decisions leave them |
| Creatures.PlanDecidesAll | crates/forgotten-core/src/world_static.rs:997-1047 | the same over the whole registry: see `Creatures.AllDecided` |
| Creatures.PlanIsSerial | crates/forgotten-core/src/world_static.rs:997-1063 | a planned batch never fails when carried out, ends in the serial reference state, and decides or skips every active creature |
| Creatures.ExecutedMovesExactlyTheDecided | crates/forgotten-core/src/world_static.rs:1049-1063 | every decided creature ends one step on, all others are unmoved |
| Creatures.DecisionsFollowIds | crates/forgotten-core/src/world_static.rs:997-1047 | at most one decision for each creature, in identifier order |
| Creatures.SharedTileBreaksThePlan | crates/forgotten-core/src/world_static.rs:997-1063 | with two creatures on one tile a planned batch can fail: a concrete registry |
| Respawn.PassServesEveryone | crates/forgotten-core/src/world_static.rs:1201-1304 | after a pass everyone due and unblocked is back at its spawn, everyone else is as before or re-armed, only blocked creatures stay away, and the counters account for every attempt; `Lifetimes` says what these states are |
| Respawn.VisitIsOrderly | crates/forgotten-core/src/world_static.rs:1201-1304 | one visit keeps the picture of taken tiles right, creatures apart and players off creatures |
| Respawn.VisitAllIsOrderly | crates/forgotten-core/src/world_static.rs:1201-1304 | a whole pass keeps the picture of taken tiles right, creatures apart and players off creatures |
| Respawn.SweepIsRight | crates/forgotten-core/src/world_static.rs:1246-1304 | both passes, over the whole registry, with the clocks kept in order |
| Restart.RestoredAt | crates/forgotten-core/src/world_static.rs:369-414 | restoring record by record gives every known creature its record and leaves the others alone |
| Restart.KnownRecordsSuffice | crates/forgotten-core/src/world_static.rs:286-367 | dropping unknown records first changes neither the checks nor the result |
| Restart.RestartRoundTrip | crates/forgotten-core/src/world_static.rs:249-430 | for any two worlds that agree on the intervals of the creatures they share: the snapshot is accepted exactly when no waiting creature that the booted world knows declares a melee interval and every recorded creature fits; targets are cleared; the next snapshot is the known records exactly when every creature that boots onto the map has one, and the same snapshot exactly when besides it holds no summon and nobody on the origin |
| Restart.CapturedFit | crates/forgotten-core/src/world_static.rs:345-367 | the prospective tiles conflict exactly if some recorded creature of the booted world would stand on a player or on the tile another is going to hold |
| Restart.OrderlyWorldsFit | crates/forgotten-core/src/world_static.rs:345-367 | nothing is in the way where the saved world kept creatures and players apart and everybody who boots onto the map has a record |
| RestartRuns.Session | crates/forgotten-core/src/world_static.rs:8-1346 | over every run of commands after an install that leaves the listed creatures in place: each keeps its interval, melee interval and spawn, and stands on the origin only if it was listed there or may walk there |
| RestartRuns.Reboot | crates/forgotten-host/src/lib.rs:1064-1065 | run, save, boot from the same collection, restore, save again: the restore succeeds exactly as in `RestartRoundTrip`; where creatures were placed apart and none has strayed to the origin, exactly when no listed creature waits with a melee interval; the next snapshot is the records of the listed creatures, and the whole one exactly when there were no others |
| RestartRuns.ExamplesInstall | crates/forgotten-core/src/world_static.rs:8-71 | the collections of the examples below can be installed |
| RestartRuns.WaitingRatIsRefused | crates/forgotten-core/src/world_static.rs:262-326 | a listed creature with a melee interval, put away: the snapshot is refused |
| RestartRuns.SummonIsNotResumed | crates/forgotten-core/src/world_static.rs:82-174 | a summon is saved and not resumed: the next snapshot is without it |
| RestartRuns.WaitingSummonIsAccepted | crates/forgotten-core/src/world_static.rs:304-340 | a summon put away waits with a melee interval, and the snapshot is accepted |
| RestartRuns.WokenTemplateIsNotResumed | crates/forgotten-core/src/world_static.rs:1201-1243 | a full sweep wakes a template on the origin: its record is written, skipped, and the template dormant again |
| RestartRuns.StrayRatBlocksItsOwnPlace | crates/forgotten-core/src/world_static.rs:286-367 | a creature saved on the origin boots at its spawn, where another one is recorded: the snapshot is refused |
| Restart.RestoreKeepsApart | crates/forgotten-core/src/world_static.rs:345-414 | a restore that passes its checks leaves nobody on a shared tile and nobody under a player |
| Restart.RestoreKeepsTimed | crates/forgotten-core/src/world_static.rs:398-414 | deadlines stay within one interval of the clock |
| Lifetimes.StrikeMeans | crates/forgotten-core/src/world_static.rs:720-827 | an attack turn, field by field: when it hits, when the target is forgotten, that a hit sets the next one a cooldown ahead (saturating), and counts once if the creature declares damage |
| Lifetimes.HitsOncePerCooldown | crates/forgotten-core/src/world_static.rs:720-827 | after a hit the creature hits again exactly from one cooldown later on, everything else being equal |
| Lifetimes.WoundMeans | crates/forgotten-core/src/world_static.rs:1122-1197 | a blow takes its points off the health, to zero at the lowest, and puts the creature away exactly if it takes the last one |
| Lifetimes.AwayForOneInterval | crates/forgotten-core/src/world_static.rs:1084-1304 | a creature put away at one tick comes up in the timed pass exactly from its interval later on, never without an interval, and in the reset at once |
| Lifetimes.BackAtTheSpawn | crates/forgotten-core/src/world_static.rs:1201-1304 | it comes back at its spawn, with full health and no trace of the absence |
| Lifetimes.BlockedForOneInterval | crates/forgotten-core/src/world_static.rs:1246-1304 | a blocked creature comes up again exactly one more interval later; a blocked reset changes nothing |
| Lifetimes.PlayerBlocksMeans | crates/forgotten-core/src/world_static.rs:1246-1304 | a player blocks on the spawn tile, and in the timed pass also anywhere in the square of the spawn area, on its floor |
| Lifetimes.InRangeMeans | crates/forgotten-core/src/world_static.rs:635-661 | in range is a square on the creature's floor |
| Lifetimes.InstalledMeans | crates/forgotten-core/src/world_static.rs:15-66 | an installed entity, field by field: active unless listed on the origin, milliseconds rounded up to whole ticks |
| Lifetimes.SummonsNeverReturn | crates/forgotten-core/src/world_static.rs:82-174 | a summon is an active fighting copy of its template; put away, it is never due again |
| Lifetimes.NamesAreFolded | crates/forgotten-core/src/world_static.rs:82-100 | a requested name is matched without the white space around it and in lower case |
| Lifetimes.LoweredAt | crates/forgotten-core/src/world_static.rs:82-100 | lower case changes exactly the letters from A to Z |
| Lifetimes.AroundIsTheSquare | crates/forgotten-core/src/world_static.rs:101-133 | the tiles tried for a summon: the requested one, its four sides, its four corners, in this order |
| Lifetimes.SavedStateComesBack | crates/forgotten-core/src/world_static.rs:249-430 | through record and restore: place, presence, health and damage count as saved, no target, and every deadline as far ahead of the new clock as of the old one |
| Lifetimes.AcceptsExactlyWhatCreaturesWrite | crates/forgotten-core/src/world_static.rs:286-343 | the checks of one record accept exactly what some creature with these intervals and its clocks in order writes, if it is active or has no melee interval |
| Follow.TowardGetsCloser | crates/forgotten-core/src/world_movement.rs:66-83 | every preferred direction stays on the map and saves exactly one step |
| Follow.TowardMeans | crates/forgotten-core/src/world_movement.rs:64-83 | the step towards a target: a passable side that leads closer, on the longer axis (east and west on a tie) unless no closer side on it is passable; none exactly if no closer side is passable |
| Follow.TurnIsGood | crates/forgotten-core/src/world_movement.rs:36-97 | a turn moves only its own player, one free step closer to where the target stands now; a living follower of a living player on his floor and not beside him takes the preferred step, and stands still exactly if no closer side is passable |
| Follow.PassKeepsTilesApart | crates/forgotten-core/src/world_movement.rs:36-97 | players on distinct tiles stay on distinct tiles, and off the creatures |
| Follow.TurnInPass | crates/forgotten-core/src/world_movement.rs:36-97 | within a pass each player is where it started until its turn, takes a good turn, and stays where that leaves it |
| WorldRules.InstallPlacesApart | crates/forgotten-core/src/world_static.rs:15-66 | creatures stand apart after an install exactly if the collection placed them apart |
| WorldRules.InstallIsOrderly | crates/forgotten-core/src/world_static.rs:15-66 | an installable collection leaves players off creatures and clocks in order |
| WorldRules.DetourStepIsFree | crates/forgotten-core/src/world_static.rs:927-942 | the step a detour was found for cannot fail |
| WorldRules.PlacePlayer | crates/forgotten-core/src/world_movement.rs:8-30 | placing a player keeps players apart exactly if no other player holds the tile |
| WorldRules.ForgettingIsOrderly | crates/forgotten-core/src/world_lifecycle.rs:89-97 | forgetting a target moves nobody |
| Worlds.World.Collect | crates/forgotten-core/src/world_static.rs:12-66 | builds the registry of a collection, or fails exactly for a blank name, a repeated identifier, a player on a tile, or too many entities |
| Worlds.World.Install | crates/forgotten-core/src/world_static.rs:8-71 | replaces the registry, or changes nothing |
| Worlds.World.MoveCreature | crates/forgotten-core/src/world_static.rs:1308-1346 | one checked cardinal step, refused without effect |
| Worlds.World.Plan | crates/forgotten-core/src/world_static.rs:997-1047 | the planning loop computes the batch the planner specification describes, in which every active creature is decided in its first passable direction, or skipped exactly if all four sides are blocked at its turn |
| Worlds.World.ApplyPolicy | crates/forgotten-core/src/world_static.rs:1049-1063 | with creatures on distinct tiles a batch never fails, ends in the serial reference state, decisions plus skipped equals the active count, and a creature is skipped exactly if all four sides are blocked at its turn |
| Worlds.World.Execute | crates/forgotten-core/src/world_static.rs:1049-1063 | carries out decisions in order, stopping at the first that fails |
| Worlds.World.SpawnDynamic | crates/forgotten-core/src/world_static.rs:82-173 | a summon happens exactly if there is room, a template of that name and a free tile among nine; it takes the first template, the first tile and the lowest unused identifier |
| Worlds.World.PlanSummon | crates/forgotten-core/src/world_static.rs:82-138 | template, tile and identifier of a summon |
| Worlds.World.FindVacancy | crates/forgotten-core/src/world_static.rs:101-133 | the first of nine tiles free of players and active creatures |
| Worlds.World.FindUnused | crates/forgotten-core/src/world_static.rs:134-137 | the lowest unused identifier of the dynamic range; there always is one |
| Worlds.World.DespawnDynamic | crates/forgotten-core/src/world_static.rs:178-189 | removes summons only |
| Worlds.World.Deactivate | crates/forgotten-core/src/world_static.rs:1084-1115 | takes a creature off the map and schedules its return |
| Worlds.World.SetHealth | crates/forgotten-core/src/world_static.rs:524-549 | sets the health of an active creature, at most 100 |
| Worlds.World.Sweep | crates/forgotten-core/src/world_static.rs:1201-1304 | the reset and the timed reactivation, with the index recomputed |
| Worlds.World.SelectTarget | crates/forgotten-core/src/world_static.rs:611-681 | the nearest living player in range on the floor, ties to the lower identifier; none for an NPC |
| Worlds.World.FindNearest | crates/forgotten-core/src/world_static.rs:635-661 | the loop that finds that player, or shows there is none |
| Worlds.World.StepToward | crates/forgotten-core/src/world_static.rs:844-942 | one step towards the target: the preferred step if a closer side is passable (see `Follow.TowardMeans`), else the first step of a shortest detour, else none; every case of the outcome |
| Worlds.World.TryDirect | crates/forgotten-core/src/world_static.rs:891-926 | the first preferred direction that leads to a free tile |
| Worlds.World.Strike | crates/forgotten-core/src/world_static.rs:720-827 | an attack turn: cooldown, target upkeep, damage cycle, death of the target, which `Lifetimes.StrikeMeans` states field by field; the one failure leaves the damage cycle advanced |
| Worlds.World.HitCreature | crates/forgotten-core/src/world_static.rs:1122-1197 | a blow takes away its percentage points and puts away a creature that loses its last |
| Worlds.World.TakeSnapshot | crates/forgotten-core/src/world_static.rs:249-270 | the snapshot loop writes the records of all persisted creatures in identifier order |
| Worlds.World.Screen | crates/forgotten-core/src/world_static.rs:283-343 | per-record checks: accepts exactly unique, acceptable records and keeps the known ones |
| Worlds.World.TilesFree | crates/forgotten-core/src/world_static.rs:345-367 | the prospective tiles are checked against players, kept creatures and one another |
| Worlds.World.ApplyRecords | crates/forgotten-core/src/world_static.rs:369-414 | applies the records and reports whether anything changed |
| Worlds.World.RestoreRuntime | crates/forgotten-core/src/world_static.rs:278-430 | restores all or nothing; succeeds exactly for restorable records; the index is right whether or not it was recomputed |
| Worlds.World.AddPlayer | crates/forgotten-core/src/world_lifecycle.rs:19-69 | registers a player exactly on a tile free of players and active creatures |
| Worlds.World.RemovePlayer | crates/forgotten-core/src/world_lifecycle.rs:71-99 | forgets a player in every map, in follow intents and in creature targets |
| Worlds.World.MovePlayer | crates/forgotten-core/src/world_movement.rs:8-30 | a raw adjacent move; keeps players apart exactly if the tile was free of them |
| Worlds.World.MovePlayerCardinal | crates/forgotten-core/src/world_movement.rs:99-111 | a raw cardinal move |
| Worlds.World.Teleport | crates/forgotten-core/src/world_movement.rs:116-142 | an explicit move that respects players and creatures |
| Worlds.World.SetFollow | crates/forgotten-core/src/lib.rs:3700-3750 | a living player follows another living player, or nobody |
| Worlds.World.FollowPass | crates/forgotten-core/src/world_movement.rs:36-97 | a pass never fails, gives what the turn-by-turn specification gives, and reports exactly the players it moved |
| Worlds.World.FollowTurn | crates/forgotten-core/src/world_movement.rs:43-94 | one player's turn in the pass |
| Worlds.World.Die | crates/forgotten-core/src/world_death.rs:69-104 | records a first death and clears intents on the dead; a second changes nothing |
| Worlds.World.Respawn | crates/forgotten-core/src/world_death.rs:186-228 | brings a dead player to his temple, unless that tile is taken |
| Worlds.World.Hydrate | crates/forgotten-core/src/world_death.rs:42-64 | accepts a full death record or the empty one |
| Worlds.World.AdvanceTicks | crates/forgotten-core/src/lib.rs:3243-3250 | the clock saturates |
| Runs.Run | crates/forgotten-core/src/world_static.rs:1348-1359 | over every run of world commands the cached index is the tiles of the active creatures and no player stands on one; creatures share a tile only after an install that placed them so, players only after a raw move |
| Runs.PerformOnCreatures | crates/forgotten-core/src/world_static.rs:8-1346 | each creature command keeps the world in order; all but an install and a despawn keep every creature, its intervals and its spawn |
| Runs.PerformOnPlayers | crates/forgotten-core/src/world_movement.rs:8-142 | each player command keeps the world in order, and every creature where it is |
| Parties.HollowPartyVanishes | crates/forgotten-core/src/world_party.rs:535-561 | disbanding an empty party touches nothing but its leader's own marks |
| Parties.SettlingIsSimultaneous | crates/forgotten-core/src/world_party.rs:563-579 | settling leaders one after the other removes exactly those that are hollow to begin with |
| Parties.PromotionIsSound | crates/forgotten-core/src/world_party.rs:510-533 | replacing a leader keeps the collections consistent, names nobody new and invites nobody to his own party |
| Parties.AcceptKeepsInv | crates/forgotten-core/src/world_party.rs:41-79 | accepting keeps every collection consistent |
| Parties.RevokeKeepsInv | crates/forgotten-core/src/world_party.rs:142-174 | revoking keeps every collection consistent, also when it dissolves the party |
| Parties.TransferKeepsInv | crates/forgotten-core/src/world_party.rs:100-139 | a transfer keeps every collection consistent |
| Parties.RestoreKeepsInv | crates/forgotten-core/src/world_party.rs:210-249 | restoring a persisted party keeps every collection consistent |
| Parties.RemovalKeepsInv | crates/forgotten-core/src/world_party.rs:563-579 | going offline keeps every collection consistent, and nothing names the player afterwards |
| Parties.AddingKeepsInv | crates/forgotten-core/src/world_party.rs:254-276 | adding a member directly keeps consistency; he ends up invited by his own leader exactly if that leader had invited him |
| Parties.CommandKeepsInv | crates/forgotten-core/src/world_party.rs:12-318 | every command keeps the invariant |
| Parties.RunKeepsInv | crates/forgotten-core/src/world_party.rs:12-318 | over every run: leaders and members disjoint, members' and invitations' leaders current, requesters leaders, everyone named online, no empty invitation set; without direct additions nobody is invited by himself or his leader |
| PartyLaws.TransferOnlyRenames | crates/forgotten-core/src/world_party.rs:100-139 | who is together, who is invited where, and which party asks, are the same after a transfer |
| PartyLaws.TransferThereAndBack | crates/forgotten-core/src/world_party.rs:100-139 | transferring back restores all collections |
| PartyLaws.LeavingTakesOnlyOneself | crates/forgotten-core/src/world_party.rs:84-95 | leaving separates a player from his party and nobody else from anybody |
| PartyLaws.AcceptingJoinsExactlyOneParty | crates/forgotten-core/src/world_party.rs:41-79 | the joiner is together with exactly the party that invited him |
| PartyLaws.HollowAfterLeaderLeaves | crates/forgotten-core/src/world_party.rs:510-561 | a leader's leave makes exactly the sole survivor of a party without invitations a leader of nobody |
| PartyLaws.HollowAfterLeaderGoesOffline | crates/forgotten-core/src/world_party.rs:563-579 | a leader going offline makes exactly the sole survivor of a party without invitations a leader of nobody |
| PartyLaws.NoNewHollow | crates/forgotten-core/src/world_party.rs:12-318 | no other command makes a leader of nobody, except restoring a party without members |
| PartyLaws.PartiesComeBack | crates/forgotten-core/src/world_party.rs:199-249 | restoring every exported party brings back exactly the leaders and members |
| PartyLaws.AddingKeepsTheInvitation | crates/forgotten-core/src/world_party.rs:254-276 | a concrete run after which a member is invited by his own leader |
| PartyLaws.SurvivorLeadsNobody | crates/forgotten-core/src/world_party.rs:510-561 | a concrete run after which the survivor of a party leads nobody |
| PartyRoles.LowestMemberSucceeds | crates/forgotten-core/src/world_party.rs:510-533 | a leader who leaves is succeeded by the lowest of his members: every old member is then in that one's party, he leads it and is no member, and the leaver has no party |
| PartyRoles.LowestMemberSucceedsOffline | crates/forgotten-core/src/world_party.rs:510-579 | the same when a leader goes offline, exactly unless he had a single member and the only invitation into his party was his own: then that member is left without a party |
| PartyRoles.OnlyMemberIsLeftWithoutParty | crates/forgotten-core/src/world_party.rs:510-579 | a concrete run that ends so |
| PartyRoles.InviteMeans | crates/forgotten-core/src/world_party.rs:12-37 | when an invitation is given, and that it makes its giver a leader and changes nothing else, player by player |
| PartyRoles.AcceptMeans | crates/forgotten-core/src/world_party.rs:41-79 | when an invitation can be accepted; the player is in that party and holds no invitation any more, and exactly the parties that waited for him alone are gone |
| PartyRoles.RevokeMeans | crates/forgotten-core/src/world_party.rs:142-174 | when an invitation can be withdrawn; it is gone, no other one is, and the party ends exactly if nothing else held it together |
| PartyRoles.MemberLeaveMeans | crates/forgotten-core/src/world_party.rs:84-95 | a member's leave takes him out, and ends the party exactly if nothing else held it together |
| PartyRoles.TransferMeans | crates/forgotten-core/src/world_party.rs:100-139 | when a party can be handed over; everybody in it, the old leader included, is then in the new leader's, with its invitations and its request |
| PartyRoles.RestoreMeans | crates/forgotten-core/src/world_party.rs:210-249 | when a party can be restored; it then has exactly the listed members |
| PartyRoles.AddMeans | crates/forgotten-core/src/world_party.rs:254-276 | when a member can be added, and whose party he is in then |
| PartyRoles.AskAndMarkMean | crates/forgotten-core/src/world_party.rs:280-320 | who may ask for shared experience, who can be marked active, and what that records |
| PartyBooks.PartyBook.Invite | crates/forgotten-core/src/world_party.rs:12-37 | the invitation command in place: its outcome, and no effect when refused |
| PartyBooks.PartyBook.Accept | crates/forgotten-core/src/world_party.rs:41-79 | the acceptance loop equals its outcome |
| PartyBooks.PartyBook.Leave | crates/forgotten-core/src/world_party.rs:84-95 | the fields end up as the outcome of the command says (`PartyRoles.LowestMemberSucceeds`, `PartyRoles.MemberLeaveMeans`), the invariant holds, a refusal changes nothing |
| PartyBooks.PartyBook.Transfer | crates/forgotten-core/src/world_party.rs:100-139 | the rename over members and invitations equals the outcome of the command; a refusal changes nothing |
| PartyBooks.PartyBook.Revoke | crates/forgotten-core/src/world_party.rs:142-174 | equals the outcome of the command, with the empty invitation set removed; a refusal changes nothing |
| PartyBooks.PartyBook.Restore | crates/forgotten-core/src/world_party.rs:210-249 | restoring a party: all or nothing |
| PartyBooks.PartyBook.AddExisting | crates/forgotten-core/src/world_party.rs:254-276 | equals the outcome of the command; a refusal changes nothing |
| PartyBooks.PartyBook.Request | crates/forgotten-core/src/world_party.rs:280-299 | asking for shared experience |
| PartyBooks.PartyBook.Mark | crates/forgotten-core/src/world_party.rs:304-320 | recording activity |
| PartyBooks.PartyBook.Remove | crates/forgotten-core/src/world_party.rs:563-579 | succession (`PartyRoles.LowestMemberSucceedsOffline`), dropped invitations and the parties they leave empty, in the order the engine visits them, equal the outcome of the command |
| PartyBooks.PartyBook.RemoveLeader | crates/forgotten-core/src/world_party.rs:510-533 | what a leader leaves behind: disbanded without members, else the heir's, whom `PartyRoles.LowestMemberSucceeds` shows to be the lowest member |
| PartyBooks.PartyBook.DisbandEach | crates/forgotten-core/src/world_party.rs:74-77 | settling in ascending order, skipping the joined party |
| PartySharing.State | crates/forgotten-core/src/world_party.rs:325-406 | the first objection to the first participant that has one |
| PartySharing.SharesExactlyWhenAllAreFit | crates/forgotten-core/src/world_party.rs:325-406 | a party shares exactly when it asked, has a member, and every participant is near, active and strong enough |
| PartySharing.ObjectionsInOrder | crates/forgotten-core/src/world_party.rs:349-406 | a participant's objections, strength before distance before activity, and when each is raised |
| PartySharing.TwoThirds | crates/forgotten-core/src/world_party.rs:349-355 | the level bound is two thirds of the highest level |
| ContainerDiff.SplitIsGood | crates/forgotten-host/src/frames.rs:721-738 | the trimmed front and back and the two middles make up both slot lists |
| ContainerDiff.InsertedBeforeMeans | crates/forgotten-host/src/frames.rs:721-767 | the exceptional case without the split: the new list is the old one with a block before its tail |
| ContainerDiff.ReplayDeletes | crates/forgotten-host/src/frames.rs:743-755 | descending deletes remove exactly the block |
| ContainerDiff.ReplayChanges | crates/forgotten-host/src/frames.rs:768-782 | targeted changes rewrite exactly the block |
| ContainerDiff.DeltaReplays | crates/forgotten-host/src/frames.rs:721-782 | replaying the slot records on the old slots gives the new ones, exactly unless a block was inserted before a shared tail, which then ends up behind it |
| ContainerDiff.InsertedInFrontIsShownBehind | crates/forgotten-host/src/frames.rs:756-767 | an item added in front of the only one of a window is shown behind it |
| ContainerDiff.OneWindowReplays | crates/forgotten-host/src/frames.rs:687-791 | one window: shown correctly exactly if it was conveyed, with every case that sends nothing or a full record |
| ContainerDiff.UpdateReplays | crates/forgotten-host/src/frames.rs:669-793 | within an update of many windows, each is shown correctly exactly if it was conveyed |
| ContainerDiff.UpdateKeepsSync | crates/forgotten-host/src/frames.rs:669-793 | a client in step with its baseline is in step with the next one exactly if every rendered window was conveyed |
| ContainerDiff.Rendered | crates/forgotten-host/src/frames.rs:623-638 | a window is rendered with as many slots as items |
| WindowRecords.WindowsShowTheirContainers | crates/forgotten-host/src/frames.rs:623-638 | a window is rendered exactly if it is not nested and every item is catalogued; each slot shows the catalogued thing, with the count, up to 255, where counts are shown |
| WindowRecords.OnlyDifferencesAreSent | crates/forgotten-host/src/frames.rs:768-782 | between slot lists of one length exactly the slots that differ are rewritten, each to what is there now |
| WindowRecords.FullRecordsAreRare | crates/forgotten-host/src/frames.rs:687-791 | a full record is sent exactly at first sight, for a new capacity, and where slots both come and go in different numbers; an unchanged window is not told at all |
| ContainerDiff.Session.DeltaFrames | crates/forgotten-host/src/frames.rs:669-793 | the update emits the records of every window in order and adopts the current rendering as baseline |
| ContainerDiff.Session.UpdateWindow | crates/forgotten-host/src/frames.rs:687-791 | the records of one window and its new baseline |
| ContainerDiff.Session.SlotDelta | crates/forgotten-host/src/frames.rs:721-782 | the two trimming loops and the four cases |
| ContainerDiff.Session.TrimShared | crates/forgotten-host/src/frames.rs:721-736 | the cursors stop at the longest shared front and back |
| Items.MergeOrInsert | crates/forgotten-core/src/lib.rs:2392-2413 | merges into the first compatible stack with room, refuses if only full ones are compatible, inserts if there is a slot |
| Items.StackingAdds | crates/forgotten-core/src/lib.rs:2053-2076 | stacking adds the item's units, except that a merge drops its contents |
| Items.SplittingCopiesContents | crates/forgotten-core/src/lib.rs:2038-2050 | both parts of a split carry the contents |
| Items.StackingIsSound | crates/forgotten-core/src/lib.rs:2392-2413 | stack and capacity bounds are kept |
| Transfers.EveryMoveIsAccountedFor | crates/forgotten-core/src/world_transfers.rs:11-586 | units of every kind after a call, with what was dropped, are the units before plus an exact drift |
| Transfers.ConservesExactlyIfHarmless | crates/forgotten-core/src/world_transfers.rs:11-586 | every unit is conserved exactly by the harmless moves: nothing consumed, contents neither copied nor merged away, content stacks dropped whole, no content moved to a nested container |
| Transfers.FailureChangesNothing | crates/forgotten-core/src/world_transfers.rs:191-235 | a failing call changes the inventory exactly if it moves content to a nested container |
| Transfers.MovesKeepBounds | crates/forgotten-core/src/world_transfers.rs:11-586 | every call keeps stack sizes, capacities and the number of containers |
| Transfers.WholeMovesConserve | crates/forgotten-core/src/world_transfers.rs:11-327 | whole-item moves and swaps conserve every unit |
| Transfers.StackMovesDrift | crates/forgotten-core/src/world_transfers.rs:333-500 | partial stack moves: what splitting copies and merging drops |
| Transfers.DropsDrift | crates/forgotten-core/src/world_transfers.rs:504-586 | ground drops: what remains and what was moved, and the remainder of a content stack that is lost |
| Transfers.EveryRunIsAccountedFor | crates/forgotten-core/src/world_transfers.rs:11-586 | the balance of any run of calls |
| Transfers.RunsKeepBounds | crates/forgotten-core/src/world_transfers.rs:11-586 | bounds over any run |
| Transfers.ExamplesAreSound | crates/forgotten-core/src/world_transfers.rs:11-586 | the inventories of the examples below are within every bound |
| Transfers.MovingToNestedLosesTheCoins | crates/forgotten-core/src/world_transfers.rs:191-235 | the coins of a purse moved to a nested container: the call fails, and they are in neither |
| Transfers.SplittingCopiesTheCoins | crates/forgotten-core/src/world_transfers.rs:333-375 | one of two stacked purses moved to a container: both hold the coins |
| Placement.TransfersPlaceEverything | crates/forgotten-core/src/world_transfers.rs:11-586 | each of the twelve calls goes through exactly when it can, and then, on old and new slots and containers: the destination holds what the source held, the source has lost it, partial stacks add up, and no other place has changed; a failing call changes nothing, except that content moved to a nested container is gone |
| Placement.StackingMeans | crates/forgotten-core/src/lib.rs:2392-2413 | stacking is possible exactly with a stack of the kind that stays within a hundred, or with none of the kind and a free place; it adds to the first such stack, or goes to the end |
| Inventories.Book.Perform | crates/forgotten-core/src/world_transfers.rs:11-586 | one call on one player's inventory settles it as `Placement.Settles` says: every item in its place, on the old and new maps; everybody else's is untouched |
| Inventories.StageEquipmentToContainer | crates/forgotten-core/src/world_transfers.rs:11-43 | moving a worn item to a container does what `Performed` says, and nothing if any step fails |
| Inventories.StageContainerToEquipment | crates/forgotten-core/src/world_transfers.rs:48-91 | moving a held item to a free slot does what `Performed` says, and nothing if any step fails |
| Inventories.StageContentToEquipment | crates/forgotten-core/src/world_transfers.rs:96-139 | moving an item out of a held item to a free slot does what `Performed` says, and nothing if any step fails |
| Inventories.StageConsumeWorn | crates/forgotten-core/src/world_transfers.rs:144-161 | using up one worn unit does what `Performed` says; an empty slot is no failure |
| Inventories.StageConsumeHeld | crates/forgotten-core/src/world_transfers.rs:166-187 | using up one held unit does what `Performed` says, and nothing if there is none |
| Inventories.StageContentToContainer | crates/forgotten-core/src/world_transfers.rs:191-235 | moving content to a container does what `Performed` says, including the write that survives the failure for a nested target |
| Inventories.StageSwapWithEquipment | crates/forgotten-core/src/world_transfers.rs:239-287 | exchanging a held and a worn item does what `Performed` says, all or nothing |
| Inventories.StageSwapEquipment | crates/forgotten-core/src/world_transfers.rs:292-328 | exchanging two worn items does what `Performed` says, all or nothing: by `Placement.TransfersPlaceEverything` each slot then holds what the other held |
| Inventories.StageWornStack | crates/forgotten-core/src/world_transfers.rs:333-375 | splitting a worn stack into a container does what `Performed` says, all or nothing |
| Inventories.StageHeldStackToEquipment | crates/forgotten-core/src/world_transfers.rs:380-435 | splitting a held stack onto a slot, merging there if it can, does what `Performed` says, all or nothing |
| Inventories.StageHeldStack | crates/forgotten-core/src/world_transfers.rs:440-499 | splitting a held stack into another container (its own is refused) does what `Performed` says, all or nothing |
| Inventories.StageDrop | crates/forgotten-core/src/world_transfers.rs:504-586 | taking a stack, worn, held or inside a held item, does what `Performed` says and hands over what was taken |
| Bank.KeywordConservesWealth | crates/forgotten-host/src/bank.rs:83-229 | balance plus carried coins is the same after every keyword, except exactly a deposit of some money, with an officer near, that would pass the largest balance; a deposit leaves no top-level coin |
| Bank.FullBalanceSwallowsTheDeposit | crates/forgotten-host/src/bank.rs:152-165 | one coin deposited on the largest balance is gone |
| Bank.RunsConserveWealth | crates/forgotten-host/src/bank.rs:83-229 | over any run of keywords a wealth that fits a balance is kept |
| Bank.WithdrawalHandsOutGold | crates/forgotten-host/src/bank.rs:167-229 | a withdrawal adds exactly the amount in gold coins and no other item, and never more than 25600 |
| Bank.TooManyChunks | crates/forgotten-host/src/bank.rs:178-191 | more than 256 stacks are needed exactly above 25600 gold |
| Deliveries.CoinsAreWorth | crates/forgotten-host/src/bank.rs:46 | 2148, 2152 and 2160 are worth 1, 100 and 10000 apiece, everything else nothing |
| Deliveries.RepliesMean | crates/forgotten-host/src/bank.rs:83-229 | which answer each keyword gets, the balance afterwards, and that every other answer than a deposit or a withdrawal changes nothing; a deposit leaves every slot and container as it was, without its coins |
| Deliveries.StacksAreFull | crates/forgotten-host/src/bank.rs:178-191 | a hundred coins in every stack but perhaps the last |
| Deliveries.StrippingWorksItemByItem | crates/forgotten-host/src/bank.rs:138-145 | stripping drops the coins and keeps everything else in order |
| Deliveries.GoldArrivesInTheFirst | crates/forgotten-host/src/bank.rs:196-217 | a stack of gold arrives in the container with the lowest identifier that is not nested and has room for it; nothing else changes |
| Deliveries.GoldPlacedInTurn | crates/forgotten-host/src/bank.rs:192-218 | a withdrawal's stacks are placed exactly if each in turn finds such a container |
| Bank.MoneyFits | crates/forgotten-host/src/bank.rs:113-148 | the sum of a deposit cannot overflow |
| Bank.StrippingTakesAllCoins | crates/forgotten-host/src/bank.rs:113-148 | a deposit takes every top-level coin and stays within the bounds |
| Bank.PlacingAddsTheAmount | crates/forgotten-host/src/bank.rs:192-218 | placing the stacks adds exactly their sum and keeps the bounds |
| Bank.StripItems | crates/forgotten-host/src/bank.rs:138-145 | the backward loop strips a container and sums its coins |
| Bank.StripSlots | crates/forgotten-host/src/bank.rs:116-134 | the loop over the ten slots keeps exactly what is no coin and sums exactly the worn coins |
| Bank.StripContainers | crates/forgotten-host/src/bank.rs:135-148 | the loop over the containers strips each and sums exactly the coins in all of them |
| Bank.Cut | crates/forgotten-host/src/bank.rs:180-191 | the chunk loop, refusing at the first stack too many |
| Bank.PlaceStack | crates/forgotten-host/src/bank.rs:196-217 | the first container that is not nested and takes the stack |
| Bank.StageWithdrawal | crates/forgotten-host/src/bank.rs:167-219 | a withdrawal goes through, or says why not |
| Bank.Teller.Handle | crates/forgotten-host/src/bank.rs:83-229 | one keyword: reply, inventory and balance |
| Trade.FlagsAreStandingConsent | crates/forgotten-core/src/world_trade.rs:88-154 | the initiator's flag is set exactly if he accepted after every change to either offer, the counterparty's exactly if he accepted after every change of the initiator's |
| Offers.OffersAreTheStandingStagings | crates/forgotten-core/src/world_trade.rs:88-142 | in the session a log leaves, a reference is on a side's offer exactly if some staging of it by that side has no later unstaging; each is there once, in the order of its last staging, and there are at most twenty |
| Offers.RefusedExactly | crates/forgotten-core/src/world_trade.rs:88-142 | a staging is refused exactly with twenty references on offer or that one among them, an unstaging exactly without it |
| Trade.OwnChangeKeepsTheCounterpartysConsent | crates/forgotten-core/src/world_trade.rs:88-114 | the counterparty's own change leaves its acceptance standing |
| Trade.TakingConserves | crates/forgotten-core/src/world_trade.rs:232-274 | what is taken and what is left make up what was there |
| Trade.PuttingBackConserves | crates/forgotten-core/src/world_trade.rs:255-288 | restoring loses nothing, though slots may change order |
| Trade.DescendingIsFaithful | crates/forgotten-core/src/world_trade.rs:232-274 | slots staged from the back to the front of each container hand over exactly the staged items |
| Trade.FaithfulExactlyIfDescending | crates/forgotten-core/src/world_trade.rs:232-274 | where all items of a container differ, only that order does |
| Trade.AscendingHandsOverAnother | crates/forgotten-core/src/world_trade.rs:232-274 | two slots staged in ascending order hand over the first and the third item |
| TradeExecution.TradesAreAccountedFor | crates/forgotten-core/src/world_trade.rs:183-357 | the two players hold after every execution, whatever its verdict, what they held less what is listed as lost; nothing is lost before a delivery |
| TradeExecution.SuccessConservesExactlyIfNothingSpills | crates/forgotten-core/src/world_trade.rs:292-357 | a success conserves every kind exactly if no offered item that holds something arrives where a compatible stack has room, which can be told from holdings and offers beforehand |
| TradeExecution.SpilledExactlyIfSomewhere | crates/forgotten-core/src/world_trade.rs:293-323 | a delivery that arrives drops contents exactly if, for some item, the stacks it finds on arrival have room for it |
| TradeExecution.ArrivingPurseSpills | crates/forgotten-core/src/world_trade.rs:293-323 | a purse with coins traded to the owner of an empty one: the purses stack, the coins are gone |
| TradeExecution.PlainTradesConserve | crates/forgotten-core/src/world_trade.rs:292-357 | a successful trade of items that hold nothing conserves every kind |
| TradeExecution.EachReceivesTheStaged | crates/forgotten-core/src/world_trade.rs:183-357 | staged from back to front, a trade fails only for lack of room, and if nothing spills each player ends with his units less his offer plus the other's |
| Deliveries.ItemsArriveInTheFirst | crates/forgotten-core/src/world_trade.rs:293-323 | a traded item arrives in the container with the lowest identifier that has room for it, merged or at the end; nothing else changes |
| Deliveries.DeliveredInTurn | crates/forgotten-core/src/world_trade.rs:293-323 | a delivery is complete exactly if its items arrive so, one after the other, and leaves them there |
| Deliveries.StopsWhereNothingFits | crates/forgotten-core/src/world_trade.rs:293-323 | any other delivery stops at the first item that fits nowhere, with those before it delivered |
| Deliveries.RestoredBehindTheRest | crates/forgotten-core/src/world_trade.rs:255-288 | restoring puts what was taken behind what is left in its container, last taken first, as long as there is room |
| Deliveries.TradersExchange | crates/forgotten-core/src/world_trade.rs:183-357 | once both offers are taken, the trade is done exactly if each arrives with the other side, and the two hold exactly that |
| Deliveries.OthersKeepTheirHoldings | crates/forgotten-core/src/world_trade.rs:183-357 | nobody but the two traders is affected by an execution |
| Deliveries.MissingExactlyIfNotThere | crates/forgotten-core/src/world_trade.rs:183-230 | an execution stops before anything changes exactly if some offered slot is not there |
| TradeExecution.RemoveOffered | crates/forgotten-core/src/world_trade.rs:232-290 | the removal loop with its restore |
| TradeExecution.Deliver | crates/forgotten-core/src/world_trade.rs:293-323 | the delivery loop, stopping at the first item without room |
| TradeBooks.TradeBook.Open | crates/forgotten-core/src/world_trade.rs:11-53 | a trade opens between two distinct living players neither of whom has opened one |
| TradeBooks.TradeBook.Find | crates/forgotten-core/src/world_trade.rs:56-86 | a player's own trade first, else the lowest that names him |
| TradeBooks.TradeBook.StageItem | crates/forgotten-core/src/world_trade.rs:88-114 | puts the reference at the end of the player's offer in the session found, unless it is there already or twenty are, and answers the size; the offer is then what the log shows (`Offers.OfferStands`); no other session or log changes |
| TradeBooks.TradeBook.UnstageItem | crates/forgotten-core/src/world_trade.rs:118-142 | takes the reference out of the player's offer, exactly if it is there; the offer is then what the log shows; no other session or log changes |
| TradeBooks.TradeBook.AcceptTrade | crates/forgotten-core/src/world_trade.rs:146-154 | accepting sets the caller's flag in the session found, appends to its log only, and answers true exactly if both consents stand |
| TradeBooks.TradeBook.Cancel | crates/forgotten-core/src/world_trade.rs:159-177 | closes the session; the counterparty gets his own identifier back |
| TradeBooks.TradeBook.Execute | crates/forgotten-core/src/world_trade.rs:183-357 | executes only with both consents fresh, and leaves what the execution specification says; also closes a trade the counterparty opened himself |
| TradeBooks.TradeBook.Swap | crates/forgotten-core/src/world_trade.rs:183-357 | the three passes over the live holdings |
| TradeRuns.Perform | crates/forgotten-core/src/world_trade.rs:11-357 | one trade command, reported as a deed of the player who gave it: flags and offers of every open trade stay what the deeds so far say, a trade that goes ahead exchanges the offers that stand, and a command that did nothing changed nothing |
| TradeRuns.Run | crates/forgotten-core/src/world_trade.rs:11-357 | over every run of trade commands, with anything happening to players and holdings in between: whenever a trade goes ahead, the player who opened it accepted it after every change to either offer, and the other accepted it after every change to the first one's offer, in the trade as it was opened last; what is executed are the offers standing in the history, each reference staged by that player and not taken back since, in order of last staging, and nothing else changes holdings |
| TradeRuns.TradeIsTold | crates/forgotten-core/src/world_trade.rs:183-193 | a trade with fresh consent has both acceptances, and the offers it executes, standing in the history |
| Conditions.BatchingDoesNotMatter | crates/forgotten-core/src/world_conditions.rs:57-118 | two runs of heartbeats with the same elapsed time, each capped at a minute, leave the same health and schedules |
| Conditions.RunIsIdeal | crates/forgotten-core/src/world_conditions.rs:57-118 | a run of heartbeats does what its elapsed time does at once, without caps or saturation |
| Conditions.TimeAdds | crates/forgotten-core/src/world_conditions.rs:57-118 | ideal time adds up |
| Conditions.HeartbeatIsIdeal | crates/forgotten-core/src/world_conditions.rs:57-118 | one heartbeat is ideal time, as long as the progress counter has room |
| Heartbeats.HeartbeatMeans | crates/forgotten-core/src/world_conditions.rs:57-118 | a heartbeat in plain arithmetic: nothing in no time; of at most 60 seconds each damaging condition takes its damage for every whole interval completed while it lasts, health stops at zero, remaining time and rest of the interval go on, and a condition is gone exactly once its time is up |
| Heartbeats.LoadedExactly | crates/forgotten-core/src/lib.rs:1852-1879 | exactly which persisted conditions are loaded, and as what |
| Conditions.SplitExactly | crates/forgotten-core/src/world_conditions.rs:85-94 | whatever the progress, splitting a heartbeat gives the same schedule exactly if the counter does not saturate, the condition expires, no interval is completed before the split, or the interval is one second |
| Conditions.NothingOverflows | crates/forgotten-core/src/world_conditions.rs:161-180 | the saturating damage sum never saturates |
| Conditions.LethalMeans | crates/forgotten-core/src/world_conditions.rs:141-156 | the lethality test agrees with the outcome |
| Conditions.PersistedProgress | crates/forgotten-core/src/lib.rs:1852-1879 | every loaded condition is one the scheduler can serve; its progress is below its interval exactly if it does damage or had no progress |
| Conditions.LoadedHasteIsAhead | crates/forgotten-core/src/lib.rs:1852-1879 | a haste persisted with interval three and progress two is loaded with interval one and progress two |
| Conditions.Sufferer.PendingDamage | crates/forgotten-core/src/world_conditions.rs:161-180 | the fold over the conditions |
| Conditions.Sufferer.AdvanceSchedules | crates/forgotten-core/src/world_conditions.rs:84-98 | the schedule loop and the removal of expired conditions |
| Conditions.Sufferer.Apply | crates/forgotten-core/src/world_conditions.rs:57-118 | one heartbeat of a living player; none for a dead one |
| Conditions.Sufferer.ApplyWithDeath | crates/forgotten-core/src/world_conditions.rs:125-159 | fails exactly if lethal without a temple, and then changes nothing; otherwise kills exactly if lethal |
| Conditions.Sufferer.Contract | crates/forgotten-core/src/world_conditions.rs:38-53 | replaces the condition of one kind |
| Stages.AcceptsExactlyDisjointLists | crates/forgotten-config/src/stages.rs:204-227 | a list is accepted exactly if it is nonempty, proper and no two stages share a level; the result is the list sorted |
| Stages.NeighboursSuffice | crates/forgotten-config/src/stages.rs:209-213 | in a sorted list, checking neighbours is checking all pairs |
| Stages.SortingReorders | crates/forgotten-config/src/stages.rs:208 | sorting reorders and does nothing else |
| Stages.AtMostOneStage | crates/forgotten-core/src/lib.rs:1544-1556 | at every level the stage that applies is the only one that covers it |
| StageTable.WrittenTablesComeBack | crates/forgotten-config/src/stages.rs:111-191 | a written table is read as what it says, in any field order and spacing |
| StageEntries.EntryMeans | crates/forgotten-config/src/stages.rs:131-178 | an entry says a stage exactly if its keys are minlevel, multiplier and perhaps maxlevel, each once, with levels in order from 1 and a multiplier from 1 to 100; without maxlevel it is open-ended |
| StageEntries.EntriesMean | crates/forgotten-config/src/stages.rs:121-184 | a table means the stages its entries say, in order, up to 512 of them |
| StageTable.ReadsExactlyTheWrittenTables | crates/forgotten-config/src/stages.rs:111-191 | a text is read as a list exactly if it is a written table that says it |
| StageTable.PrintedListsComeBack | crates/forgotten-config/src/stages.rs:111-191 | any list of at most 512 proper stages, printed in any order, is read back sorted, or refused if it overlaps |
| StageTable.AcceptedTablesAreDisjoint | crates/forgotten-config/src/stages.rs:111-227 | an accepted table holds proper, pairwise disjoint stages in order |
| StageReader.ParseTable | crates/forgotten-config/src/stages.rs:111-191 | the reader computes the table specification |
| StageReader.Reader.Entries | crates/forgotten-config/src/stages.rs:121-184 | the entry loop, with its limit |
| StageReader.Reader.EntryFields | crates/forgotten-config/src/stages.rs:131-161 | the field loop, refusing repeated and unknown fields |
| StageReader.Reader.Identifier | crates/forgotten-config/src/stages.rs:275-290 | takes the longest run of letters, digits and underscores after white space, or fails on an empty one |
| StageReader.Reader.UnsignedInteger | crates/forgotten-config/src/stages.rs:292-305 | a number that fits 32 bits |
| StageReader.Reader.Consume | crates/forgotten-config/src/stages.rs:252-260 | the expected character, after white space |

## Left out

- The printer of `crates/forgotten-config/src/otbm.rs:579-592` is modelled with one difference: it escapes a reserved node
  kind, so that it can print every tree.
- Map-wide decoding beyond tile areas (header, towns, waypoints, the tile limits of the world map), and the meaning of
  item definitions.
- Client frames as bytes: records are values, and the encoders cannot fail within the bounds that the constructors of
  containers and of the presentation catalogue enforce. The client itself is the one the delta layer assumes: a created
  slot is appended, a deleted one shifts the rest.
- Windows of nested content, corpses and equipment slots.
- God mode, invisibility, frags, loot, rewards, amounts of damage, mitigation and player vitality outside `Conditions`;
  what an attack does to a player is a parameter of `Strike`, and whether a player may attack yet one of `HitCreature`.
- Player intents other than following, and the revision counter.
- Case folding and trimming of names are for ASCII; texts of the stage table are bytes written as characters.
- Party display relations, and the choice of experience recipients once a party shares.
- The XML form of the stage table, and the award arithmetic behind a stage.
- Parsing of bank messages and the search for a bank officer: a keyword and the officer's presence are parameters, and
  the bank database and the world are one state.
- Whether a unit was there to use up: `ConsumeWorn` and `ConsumeHeld` succeed either way, and the inventory tells.
- Carried weight, equipment compatibility, and everything the engine does with a stack on the ground.
- Trade windows and the moment a trade was opened.
- Town selection: a temple is a parameter of `Die`, `Strike` and `ApplyWithDeath`.
- Files, sockets, persistence, scripting, sessions and diagnostics.
- Worlds.World.SpawnDynamic: leaves out look, direction, loot and reward, which a summon copies from its template.
- Worlds.World.Deactivate: leaves out that players forget a target that goes away, because attack intents are no field here.
- Worlds.World.RestoreRuntime: leaves out that players forget targets that are not active afterwards, for the same reason.
- Worlds.World.SetFollow: leaves out the attack target that following gives up, for the same reason.
- Worlds.World.SelectTarget: does not except players in god mode or invisible, because those flags are no fields here.
- Worlds.World.FindNearest: the same.
- Worlds.World.Strike: leaves the size of the damage out, because the formulas behind it are not part of this model.
- Worlds.World.HitCreature: takes the attacker's own cooldown as given, and does not renew it.
- Worlds.World.AddPlayer: leaves out vitals and their validity, and the other records made for a player.
- Worlds.World.RemovePlayer: leaves out the records outside this class; for party state see `Parties.RemovalKeepsInv`.
- Worlds.World.Die: leaves out health, conditions (see `Conditions.Sufferer.ApplyWithDeath`) and the search for the temple.
- Worlds.World.Respawn: leaves out health and mana.
- StageTable.PrintedListsComeBack: speaks of tables within the size limit of the source and of whole multipliers, which
  are all a table can express.
