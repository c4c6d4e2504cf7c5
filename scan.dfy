/**
 * One tick of the collision scan: for every player, every nearby cell is
 * looked up in the world, filtered by type, culled by distance and tested
 * for box overlap; each hit raises one collision event.
 */
module Scan {

  import opened Wrappers
  import opened Geometry
  import opened Shapes
  import opened Neighbourhood

  /**
   * Which block types are watched: an explicit list, or every type except
   * an exclusion list (the "*" configuration).
   */
  datatype TypeFilter = Listed(types: seq<string>) | Wildcard(excludes: seq<string>)

  predicate Passes(f: TypeFilter, typeId: string)
  {
    match f
    case Listed(types) => typeId in types
    case Wildcard(excludes) => typeId !in excludes
  }

  /** The configured filter: diamond and iron blocks. */
  const TargetBlockTypes: TypeFilter := Listed(["minecraft:diamond_block", "minecraft:iron_block"])

  /** The cell radius searched around each player. */
  const ScanRadius: int := 2

  /** A player: where their feet are and which dimension they are in. */
  datatype Player = Player(location: Vec3, dimension: int)

  /** The host world's block lookup: the type of the block at a cell of a dimension, if any. */
  type World = (int, Cell) -> Option<string>

  /** One call of the collision handler: the player's index in the tick's player list, the block's cell and type. */
  datatype Event = Event(player: nat, cell: Cell, typeId: string)

  /** The three checks a looked-up block of type t must pass for the handler to be called. */
  predicate Fires(p: Player, cell: Cell, typeId: string, f: TypeFilter)
  {
    && Passes(f, typeId)
    && InCheckRange(p.location, Corner(cell))
    && Intersects(PlayerBox(p.location), BlockBox(cell, typeId))
  }

  /** The events raised for one cell of player n. */
  function CellEvent(n: nat, p: Player, cell: Cell, world: World, f: TypeFilter): seq<Event>
  {
    match world(p.dimension, cell)
    case None => []
    case Some(t) => if Fires(p, cell, t, f) then [Event(n, cell, t)] else []
  }

  /** The events raised for player n over the given cells, in order. */
  function CellEvents(n: nat, p: Player, cells: seq<Cell>, world: World, f: TypeFilter): seq<Event>
  {
    if |cells| == 0 then []
    else CellEvents(n, p, cells[..|cells| - 1], world, f) + CellEvent(n, p, cells[|cells| - 1], world, f)
  }

  /** The events of one tick: each player in turn, over their neighbourhood. */
  function TickEvents(players: seq<Player>, world: World, f: TypeFilter): seq<Event>
  {
    if |players| == 0 then []
    else
      var n := |players| - 1;
      TickEvents(players[..n], world, f)
        + CellEvents(n, players[n], NearbyCells(players[n].location, ScanRadius), world, f)
  }

  /** Any block whose box touches the player's box lies in the radius-2 neighbourhood. */
  lemma ContactIsNearby(p: Vec3, cell: Cell, typeId: string)
    requires Intersects(PlayerBox(p), BlockBox(cell, typeId))
    ensures InNeighbourhood(cell, p, ScanRadius)
  {
  }

  /** An event of player n is raised for a cell exactly when the cell is listed and its block fires. */
  lemma {:induction false} CellEventsMember(n: nat, p: Player, cells: seq<Cell>, world: World, f: TypeFilter, e: Event)
    ensures e in CellEvents(n, p, cells, world, f) <==>
      e.player == n && e.cell in cells && world(p.dimension, e.cell) == Some(e.typeId) && Fires(p, e.cell, e.typeId, f)
  {
    if |cells| > 0 {
      var k := |cells| - 1;
      CellEventsMember(n, p, cells[..k], world, f, e);
      assert cells == cells[..k] + [cells[k]];
    }
  }

  /**
   * The reference meaning of a tick: an event is raised exactly when its
   * player is in the list, a block of its type is at its cell in that
   * player's dimension, the type passes the filter, the cell's corner is
   * within the check radius and the boxes touch. The radius-2 enumeration
   * misses no such block.
   */
  lemma {:induction false} TickEventsMember(players: seq<Player>, world: World, f: TypeFilter, e: Event)
    ensures e in TickEvents(players, world, f) <==>
      && e.player < |players|
      && world(players[e.player].dimension, e.cell) == Some(e.typeId)
      && Fires(players[e.player], e.cell, e.typeId, f)
  {
    if |players| > 0 {
      var n := |players| - 1;
      var front, p := players[..n], players[n];
      TickEventsMember(front, world, f, e);
      CellEventsMember(n, p, NearbyCells(p.location, ScanRadius), world, f, e);
      NearbyCellsMembers(p.location, ScanRadius);
      if e.player < n {
        assert front[e.player] == players[e.player];
      }
      if e.player == n && Fires(p, e.cell, e.typeId, f) {
        ContactIsNearby(p.location, e.cell, e.typeId);
      }
    }
  }

  /** Events come player by player, and within a player in the enumeration's cell order. */
  predicate EventBefore(a: Event, b: Event)
  {
    a.player < b.player || (a.player == b.player && LexLess(a.cell, b.cell))
  }

  predicate EventsOrdered(s: seq<Event>)
  {
    forall i, j :: 0 <= i < j < |s| ==> EventBefore(s[i], s[j])
  }

  lemma AppendOrdered(a: seq<Event>, b: seq<Event>)
    requires EventsOrdered(a) && EventsOrdered(b)
    requires forall u, v :: u in a && v in b ==> EventBefore(u, v)
    ensures EventsOrdered(a + b)
  {
    forall i, j | 0 <= i < j < |a + b|
      ensures EventBefore((a + b)[i], (a + b)[j])
    {
      if j < |a| {
        assert (a + b)[i] == a[i] && (a + b)[j] == a[j];
      } else if i >= |a| {
        assert (a + b)[i] == b[i - |a|] && (a + b)[j] == b[j - |a|];
      } else {
        assert (a + b)[i] in a && (a + b)[j] in b;
      }
    }
  }

  lemma {:induction false} CellEventsOrdered(n: nat, p: Player, cells: seq<Cell>, world: World, f: TypeFilter)
    requires StrictlyIncreasing(cells)
    ensures EventsOrdered(CellEvents(n, p, cells, world, f))
  {
    if |cells| > 0 {
      var k := |cells| - 1;
      var front := cells[..k];
      assert forall i :: 0 <= i < k ==> front[i] == cells[i];
      CellEventsOrdered(n, p, front, world, f);
      var a, b := CellEvents(n, p, front, world, f), CellEvent(n, p, cells[k], world, f);
      forall u, v | u in a && v in b
        ensures EventBefore(u, v)
      {
        CellEventsMember(n, p, front, world, f, u);
        var i :| 0 <= i < k && front[i] == u.cell;
      }
      AppendOrdered(a, b);
    }
  }

  /** A tick's events are ordered by player, then by cell. */
  lemma {:induction false} TickEventsOrdered(players: seq<Player>, world: World, f: TypeFilter)
    ensures EventsOrdered(TickEvents(players, world, f))
  {
    if |players| > 0 {
      var n := |players| - 1;
      var front, p := players[..n], players[n];
      TickEventsOrdered(front, world, f);
      NearbyCellsOrdered(p.location, ScanRadius);
      CellEventsOrdered(n, p, NearbyCells(p.location, ScanRadius), world, f);
      var a, b := TickEvents(front, world, f), CellEvents(n, p, NearbyCells(p.location, ScanRadius), world, f);
      forall u, v | u in a && v in b
        ensures EventBefore(u, v)
      {
        TickEventsMember(front, world, f, u);
        CellEventsMember(n, p, NearbyCells(p.location, ScanRadius), world, f, v);
      }
      AppendOrdered(a, b);
    }
  }

  /** Within one tick the handler is called at most once per player and block. */
  lemma AtMostOncePerPair(players: seq<Player>, world: World, f: TypeFilter)
    ensures var s := TickEvents(players, world, f);
      forall i, j :: 0 <= i < j < |s| ==> s[i].player != s[j].player || s[i].cell != s[j].cell
  {
    TickEventsOrdered(players, world, f);
  }

  /** Only types the filter lets through ever raise an event. */
  lemma EventsPassFilter(players: seq<Player>, world: World, f: TypeFilter)
    ensures forall e :: e in TickEvents(players, world, f) ==> Passes(f, e.typeId)
  {
    forall e | e in TickEvents(players, world, f)
      ensures Passes(f, e.typeId)
    {
      TickEventsMember(players, world, f, e);
    }
  }

  /** An empty type list watches nothing. */
  lemma EmptyListNeverFires(players: seq<Player>, world: World)
    ensures TickEvents(players, world, Listed([])) == []
  {
    var s := TickEvents(players, world, Listed([]));
    if |s| > 0 {
      TickEventsMember(players, world, Listed([]), s[0]);
    }
  }

  /** The configured filter passes diamond and iron blocks and nothing else. */
  lemma ConfiguredTargets(typeId: string)
    ensures Passes(TargetBlockTypes, typeId) <==>
      typeId == "minecraft:diamond_block" || typeId == "minecraft:iron_block"
  {
  }

  /** One more step of the inner loop appends the events of the next cell. */
  lemma CellEventsSnoc(n: nat, p: Player, cells: seq<Cell>, m: nat, world: World, f: TypeFilter)
    requires m < |cells|
    ensures CellEvents(n, p, cells[..m + 1], world, f)
      == CellEvents(n, p, cells[..m], world, f) + CellEvent(n, p, cells[m], world, f)
  {
    assert cells[..m + 1][..m] == cells[..m];
  }

  /** One more step of the outer loop appends the events of the next player. */
  lemma TickEventsSnoc(players: seq<Player>, n: nat, world: World, f: TypeFilter)
    requires n < |players|
    ensures TickEvents(players[..n + 1], world, f)
      == TickEvents(players[..n], world, f)
        + CellEvents(n, players[n], NearbyCells(players[n].location, ScanRadius), world, f)
  {
    assert players[..n + 1][..n] == players[..n];
  }

  /** A world holding a single block. */
  function OneBlock(at: Cell, typeId: string): World
  {
    (d: int, c: Cell) => if c == at then Some(typeId) else None
  }

  /**
   * A player standing at (10, 5, 10) on a full block at cell (10, 4, 10):
   * the feet touch the block's top face, and the handler is called exactly
   * once in the tick.
   */
  lemma StandingOnBlockFiresOnce(typeId: string, f: TypeFilter)
    requires Classify(typeId) == FullBlock && Passes(f, typeId)
    ensures
      var players, at := [Player(Vec3(10.0, 5.0, 10.0), 0)], Cell(10, 4, 10);
      TickEvents(players, OneBlock(at, typeId), f) == [Event(0, at, typeId)]
  {
    var players, at := [Player(Vec3(10.0, 5.0, 10.0), 0)], Cell(10, 4, 10);
    var world, e := OneBlock(at, typeId), Event(0, at, typeId);
    var s := TickEvents(players, world, f);
    assert DistanceSquared(players[0].location, Corner(at)) == 1.0;
    TickEventsMember(players, world, f, e);
    forall i | 0 <= i < |s|
      ensures s[i] == e
    {
      TickEventsMember(players, world, f, s[i]);
    }
    TickEventsOrdered(players, world, f);
    assert |s| < 2 || EventBefore(s[0], s[1]);
  }

  /**
   * The body of the interval callback for one player: build the player
   * box, enumerate the cells within radius 2, look each one up and raise an
   * event for every block that passes the filter, the distance check and
   * the overlap test.
   */
  method ScanPlayer(n: nat, player: Player, world: World, f: TypeFilter) returns (events: seq<Event>)
    ensures events == CellEvents(n, player, NearbyCells(player.location, ScanRadius), world, f)
  {
    var playerBox := PlayerBox(player.location);
    var locations := NearbyBlockLocations(player.location, ScanRadius);
    events := [];
    var m := 0;
    while m < |locations|
      invariant 0 <= m <= |locations|
      invariant events == CellEvents(n, player, locations[..m], world, f)
    {
      var location := locations[m];
      var block := world(player.dimension, location);
      if block.Some? {
        var typeId := block.value;
        if Passes(f, typeId) {
          if InCheckRange(player.location, Corner(location)) {
            var blockBox := GetBlockBoundingBox(location, typeId);
            if Intersects(playerBox, blockBox) {
              events := events + [Event(n, location, typeId)];
            }
          }
        }
      }
      CellEventsSnoc(n, player, locations, m, world, f);
      m := m + 1;
    }
    assert locations[..m] == locations;
  }

  /** The model of the interval callback: every player in turn, in the order the world lists them. */
  method Tick(players: seq<Player>, world: World, f: TypeFilter) returns (events: seq<Event>)
    ensures events == TickEvents(players, world, f)
  {
    events := [];
    var n := 0;
    while n < |players|
      invariant 0 <= n <= |players|
      invariant events == TickEvents(players[..n], world, f)
    {
      var playerEvents := ScanPlayer(n, players[n], world, f);
      events := events + playerEvents;
      TickEventsSnoc(players, n, world, f);
      n := n + 1;
    }
    assert players[..n] == players;
  }
}
