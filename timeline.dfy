/** The interactive timeline canvas: episodes become draggable node discs joined
    by connection lines. Pointer events select, move and link nodes; moves and new
    links are handed to persistence callbacks, with a local rollback or a local
    append depending on how the callback ends. */
module Timeline {
  import opened Records
  import Seqs
  import Text

  /** Radius of a node disc; a pointer hits a node strictly inside it. */
  const NodeRadius: int := 20

  /** Characters of a title drawn inside its node. */
  const LabelLength: nat := 8

  /** A node on the canvas: the working copy of an episode's position plus its
      selection flag; `data` is the episode it was built from. */
  datatype Node = Node(id: EpisodeId, title: string, x: int, y: int, selected: bool, data: Episode)

  /** How a persistence callback ends: not supplied by the host page, resolved,
      or rejected. */
  datatype Outcome = NoCallback | Resolves | Rejects

  /** A call made to a persistence callback. */
  datatype Call = Connect(startId: EpisodeId, endId: EpisodeId) | UpdatePosition(nodeId: EpisodeId, x: int, y: int)

  /** The hover tooltip's state. */
  datatype Tooltip = Tooltip(show: bool, text: string, x: int, y: int)

  const HiddenTooltip := Tooltip(false, "", 0, 0)

  /** A line the render loop strokes between two node centres. */
  datatype Segment = Segment(x1: int, y1: int, x2: int, y2: int)

  // ---------------------------------------------------------------------------
  // Node and edge derivation

  /** `position || 100`: a null or zero coordinate falls back to 100. */
  function SeedCoord(p: Option<int>): int {
    match p
    case Some(v) => if v != 0 then v else 100
    case None => 100
  }

  /** The coordinate a rollback writes back: the raw column (a null taken as a
      number is 0). */
  function RawCoord(p: Option<int>): int {
    match p
    case Some(v) => v
    case None => 0
  }

  predicate NonZero(p: Option<int>) {
    p.Some? && p.value != 0
  }

  function NodeOf(e: Episode): Node {
    Node(e.id, e.title, SeedCoord(e.position_x), SeedCoord(e.position_y), false, e)
  }

  /** `episodes.map(...)`: one fresh, unselected node per episode. */
  function BuildNodes(episodes: seq<Episode>): (nodes: seq<Node>)
    ensures |nodes| == |episodes|
    ensures forall i :: 0 <= i < |nodes| ==> nodes[i].data == episodes[i] && !nodes[i].selected
  {
    if episodes == [] then [] else [NodeOf(episodes[0])] + BuildNodes(episodes[1..])
  }

  /** Nodes are built one per episode, in order, copying id and title, unselected,
      and seeded at the persisted position or 100 where that is null or zero. */
  lemma {:induction false} BuildNodesSpec(episodes: seq<Episode>)
    ensures var nodes := BuildNodes(episodes);
      && |nodes| == |episodes|
      && forall i :: 0 <= i < |episodes| ==>
           && nodes[i].id == episodes[i].id
           && nodes[i].title == episodes[i].title
           && !nodes[i].selected
           && nodes[i].data == episodes[i]
           && (NonZero(episodes[i].position_x) ==> nodes[i].x == episodes[i].position_x.value)
           && (!NonZero(episodes[i].position_x) ==> nodes[i].x == 100)
           && (NonZero(episodes[i].position_y) ==> nodes[i].y == episodes[i].position_y.value)
           && (!NonZero(episodes[i].position_y) ==> nodes[i].y == 100)
  {
    if episodes != [] {
      BuildNodesSpec(episodes[1..]);
      assert forall i :: 1 <= i < |episodes| ==> BuildNodes(episodes)[i] == BuildNodes(episodes[1..])[i - 1];
    }
  }

  /** The connections an episode contributes; none when the field is absent. */
  function OwnConnections(e: Episode): seq<Connection> {
    match e.connections
    case Some(cs) => cs
    case None => []
  }

  /** `episodes.reduce((acc, e) => e.connections ? [...acc, ...e.connections] : acc, acc)`. */
  function FoldConnections(acc: seq<Connection>, episodes: seq<Episode>): (r: seq<Connection>)
    ensures acc <= r
    decreases |episodes|
  {
    if episodes == [] then acc
    else FoldConnections(acc + OwnConnections(episodes[0]), episodes[1..])
  }

  /** The global edge list the canvas starts from. */
  function FlattenConnections(episodes: seq<Episode>): seq<Connection> {
    FoldConnections([], episodes)
  }

  /** Reference definition: each episode's connections in turn, first to last. */
  function ConcatConnections(episodes: seq<Episode>): seq<Connection> {
    if episodes == [] then [] else OwnConnections(episodes[0]) + ConcatConnections(episodes[1..])
  }

  /** The left fold the source uses equals the in-order concatenation. */
  lemma {:induction false} FoldIsConcat(acc: seq<Connection>, episodes: seq<Episode>)
    ensures FoldConnections(acc, episodes) == acc + ConcatConnections(episodes)
    decreases |episodes|
  {
    if episodes != [] {
      FoldIsConcat(acc + OwnConnections(episodes[0]), episodes[1..]);
      assert acc + OwnConnections(episodes[0]) + ConcatConnections(episodes[1..])
          == acc + (OwnConnections(episodes[0]) + ConcatConnections(episodes[1..]));
    }
  }

  /** The flat list holds exactly the connections of the episodes, each episode's
      block in episode order, and nothing from an episode without connections. */
  lemma {:induction false} FlattenConnectionsSpec(episodes: seq<Episode>, c: Connection)
    ensures FlattenConnections(episodes) == ConcatConnections(episodes)
    ensures c in FlattenConnections(episodes) <==>
      exists i :: 0 <= i < |episodes| && episodes[i].connections.Some? && c in episodes[i].connections.value
  {
    FoldIsConcat([], episodes);
    assert [] + ConcatConnections(episodes) == ConcatConnections(episodes);
    ConcatMembership(episodes, c);
  }

  lemma {:induction false} ConcatMembership(episodes: seq<Episode>, c: Connection)
    ensures c in ConcatConnections(episodes) <==>
      exists i :: 0 <= i < |episodes| && episodes[i].connections.Some? && c in episodes[i].connections.value
  {
    if episodes != [] {
      ConcatMembership(episodes[1..], c);
      if c in ConcatConnections(episodes[1..]) {
        var i :| 0 <= i < |episodes[1..]| && episodes[1..][i].connections.Some? && c in episodes[1..][i].connections.value;
        assert episodes[i + 1] == episodes[1..][i];
      }
      if exists i :: 0 <= i < |episodes| && episodes[i].connections.Some? && c in episodes[i].connections.value {
        var i :| 0 <= i < |episodes| && episodes[i].connections.Some? && c in episodes[i].connections.value;
        if i > 0 { assert episodes[1..][i - 1] == episodes[i]; }
      }
    }
  }

  // ---------------------------------------------------------------------------
  // Hit testing

  /** The pointer is strictly inside the node's disc (squared distance, so no
      square root is needed). */
  predicate Hits(n: Node, x: int, y: int) {
    var dx := n.x - x;
    var dy := n.y - y;
    dx * dx + dy * dy < NodeRadius * NodeRadius
  }

  /** The `find` predicate: a hit, and when `exclude` is given, a node other than it. */
  predicate Eligible(n: Node, x: int, y: int, exclude: Option<EpisodeId>) {
    Hits(n, x, y) && (exclude.None? || n.id != exclude.value)
  }

  /** `nodes.find(...)`: the index of the first eligible node in list order. */
  function FindNode(nodes: seq<Node>, x: int, y: int, exclude: Option<EpisodeId>): (r: Option<nat>)
    ensures r.Some? ==> r.value < |nodes| && Eligible(nodes[r.value], x, y, exclude)
    ensures r.Some? ==> forall j :: 0 <= j < r.value ==> !Eligible(nodes[j], x, y, exclude)
    ensures r.None? ==> forall j :: 0 <= j < |nodes| ==> !Eligible(nodes[j], x, y, exclude)
  {
    if nodes == [] then None
    else if Eligible(nodes[0], x, y, exclude) then Some(0)
    else match FindNode(nodes[1..], x, y, exclude)
      case None => None
      case Some(k) => Some(k + 1)
  }

  /** The hover tooltip: the first node under the pointer with its details,
      placed 30 above its centre; hidden when no node is under the pointer. */
  function Hover(nodes: seq<Node>, x: int, y: int): (t: Tooltip)
    ensures t.show <==> exists i :: 0 <= i < |nodes| && Hits(nodes[i], x, y)
    ensures !t.show ==> t == HiddenTooltip
    ensures t.show ==> exists i :: (0 <= i < |nodes| && Hits(nodes[i], x, y)
      && (forall j :: 0 <= j < i ==> !Hits(nodes[j], x, y))
      && t == Tooltip(true, TooltipText(nodes[i]), nodes[i].x, nodes[i].y - 30))
  {
    match FindNode(nodes, x, y, None)
    case None => HiddenTooltip
    case Some(i) => Tooltip(true, TooltipText(nodes[i]), nodes[i].x, nodes[i].y - 30)
  }

  /** Title, description (blank when missing), closure type (a null renders as
      "null") and arc (N/A when missing or empty), one per line. */
  function TooltipText(n: Node): (text: string)
    ensures var description := n.data.description.Some? && '\n' !in n.data.description.value;
      var closure := n.data.closure_type.Some? && '\n' !in n.data.closure_type.value;
      var arc := n.data.arc_name.Some? && '\n' !in n.data.arc_name.value;
      '\n' !in n.title && (description || n.data.description.None?) && (closure || n.data.closure_type.None?)
        && (arc || n.data.arc_name.None?) ==>
      var lines := Text.SplitLines(text);
      && |lines| == 4
      && lines[0] == n.title
      && lines[1] == (if description then n.data.description.value else "")
      && lines[2] == "Tipo: " + (if closure then n.data.closure_type.value else "null")
      && lines[3] == "Arco: " + (if arc && n.data.arc_name.value != "" then n.data.arc_name.value else "N/A")
  {
    var description := match n.data.description case Some(d) => d case None => "";
    var closure := match n.data.closure_type case Some(c) => c case None => "null";
    var arc := match n.data.arc_name case Some(a) => if a != "" then a else "N/A" case None => "N/A";
    var lines := [n.title, description, "Tipo: " + closure, "Arco: " + arc];
    if forall i :: 0 <= i < |lines| ==> '\n' !in lines[i] then
      Text.JoinSplit(lines);
      Text.JoinLines(lines)
    else
      Text.JoinLines(lines)
  }

  // ---------------------------------------------------------------------------
  // Whole-list node updates

  /** Two node lists show the same episodes at the same places. */
  predicate SameEpisodes(a: seq<Node>, b: seq<Node>) {
    |a| == |b| && forall i :: 0 <= i < |a| ==> a[i].id == b[i].id && a[i].title == b[i].title && a[i].data == b[i].data
  }

  /** The selection rule of a click: exactly the nodes carrying `id` become selected. */
  function SelectOnly(nodes: seq<Node>, id: EpisodeId): (r: seq<Node>)
    ensures SameEpisodes(nodes, r)
    ensures forall i :: 0 <= i < |r| ==> r[i].x == nodes[i].x && r[i].y == nodes[i].y
    ensures forall i :: 0 <= i < |r| ==> (r[i].selected <==> nodes[i].id == id)
  {
    if nodes == [] then []
    else [nodes[0].(selected := nodes[0].id == id)] + SelectOnly(nodes[1..], id)
  }

  /** The drag rule: the nodes carrying `id` move to the pointer, the rest stay. */
  function MoveNode(nodes: seq<Node>, id: EpisodeId, x: int, y: int): (r: seq<Node>)
    ensures SameEpisodes(nodes, r)
    ensures forall i :: 0 <= i < |r| ==> r[i].selected == nodes[i].selected
    ensures forall i :: 0 <= i < |r| && nodes[i].id == id ==> r[i].x == x && r[i].y == y
    ensures forall i :: 0 <= i < |r| && nodes[i].id != id ==> r[i] == nodes[i]
  {
    if nodes == [] then []
    else [if nodes[0].id == id then nodes[0].(x := x, y := y) else nodes[0]] + MoveNode(nodes[1..], id, x, y)
  }

  /** The rollback rule: the nodes carrying `id` go back to their episode's
      persisted coordinates, the rest stay. */
  function Rollback(nodes: seq<Node>, id: EpisodeId): (r: seq<Node>)
    ensures SameEpisodes(nodes, r)
    ensures forall i :: 0 <= i < |r| ==> r[i].selected == nodes[i].selected
    ensures forall i :: 0 <= i < |r| && nodes[i].id == id ==>
      r[i].x == RawCoord(nodes[i].data.position_x) && r[i].y == RawCoord(nodes[i].data.position_y)
    ensures forall i :: 0 <= i < |r| && nodes[i].id != id ==> r[i] == nodes[i]
  {
    if nodes == [] then []
    else
      var n := nodes[0];
      [if n.id == id then n.(x := RawCoord(n.data.position_x), y := RawCoord(n.data.position_y)) else n]
        + Rollback(nodes[1..], id)
  }

  /** Every node sits where it was seeded from its episode. */
  predicate Seeded(nodes: seq<Node>) {
    forall i :: 0 <= i < |nodes| ==>
      nodes[i].x == SeedCoord(nodes[i].data.position_x) && nodes[i].y == SeedCoord(nodes[i].data.position_y)
  }

  lemma {:induction false} BuiltNodesSeeded(episodes: seq<Episode>)
    ensures Seeded(BuildNodes(episodes))
  {
    BuildNodesSpec(episodes);
  }

  /** A failed drag erases the drag: rolling back after moving a node gives the
      same nodes as rolling back without the move. */
  lemma RollbackForgetsMove(nodes: seq<Node>, id: EpisodeId, x: int, y: int)
    ensures Rollback(MoveNode(nodes, id, x, y), id) == Rollback(nodes, id)
  {
    var a, b := Rollback(MoveNode(nodes, id, x, y), id), Rollback(nodes, id);
    assert forall i :: 0 <= i < |a| ==> a[i] == b[i];
  }

  /** Starting from seeded nodes, a drag that is rolled back restores the nodes
      exactly if and only if every episode with that id has non-zero persisted
      coordinates: a null or zero coordinate was shown at 100 but is rolled back
      to 0. */
  lemma RollbackRestoresSeeded(nodes: seq<Node>, id: EpisodeId, x: int, y: int)
    requires Seeded(nodes)
    ensures Rollback(MoveNode(nodes, id, x, y), id) == nodes <==>
      forall i :: 0 <= i < |nodes| && nodes[i].id == id ==>
        NonZero(nodes[i].data.position_x) && NonZero(nodes[i].data.position_y)
  {
    RollbackForgetsMove(nodes, id, x, y);
    var r := Rollback(nodes, id);
    if forall i :: 0 <= i < |nodes| && nodes[i].id == id ==>
        NonZero(nodes[i].data.position_x) && NonZero(nodes[i].data.position_y) {
      assert forall i :: 0 <= i < |nodes| ==> r[i] == nodes[i];
    } else {
      var i :| 0 <= i < |nodes| && nodes[i].id == id &&
        !(NonZero(nodes[i].data.position_x) && NonZero(nodes[i].data.position_y));
      assert r[i].x != nodes[i].x || r[i].y != nodes[i].y;
    }
  }

  // ---------------------------------------------------------------------------
  // Drawing rules

  /** The first node carrying `id`, as `nodes.find(n => n.id === id)`. */
  function NodeById(nodes: seq<Node>, id: EpisodeId): (r: Option<nat>)
    ensures r.Some? ==> (r.value < |nodes| && nodes[r.value].id == id
      && forall j :: 0 <= j < r.value ==> nodes[j].id != id)
    ensures r.None? <==> forall j :: 0 <= j < |nodes| ==> nodes[j].id != id
  {
    if nodes == [] then None
    else if nodes[0].id == id then Some(0)
    else match NodeById(nodes[1..], id)
      case None => None
      case Some(k) => Some(k + 1)
  }

  predicate Drawable(nodes: seq<Node>, c: Connection) {
    NodeById(nodes, c.start).Some? && NodeById(nodes, c.end).Some?
  }

  /** The connections the render loop strokes, in list order. */
  function DrawnConnections(nodes: seq<Node>, connections: seq<Connection>): (drawn: seq<Connection>)
    ensures |drawn| <= |connections|
    ensures forall i :: 0 <= i < |drawn| ==> Drawable(nodes, drawn[i])
  {
    if connections == [] then []
    else
      (if Drawable(nodes, connections[0]) then [connections[0]] else [])
        + DrawnConnections(nodes, connections[1..])
  }

  /** The line stroked for a drawable connection: between the centres of the
      first nodes carrying its endpoints' ids. */
  function SegmentOf(nodes: seq<Node>, c: Connection): (s: Segment)
    requires Drawable(nodes, c)
    ensures exists i, j :: (0 <= i < |nodes| && 0 <= j < |nodes| && nodes[i].id == c.start && nodes[j].id == c.end
      && s == Segment(nodes[i].x, nodes[i].y, nodes[j].x, nodes[j].y))
  {
    var i, j := NodeById(nodes, c.start).value, NodeById(nodes, c.end).value;
    Segment(nodes[i].x, nodes[i].y, nodes[j].x, nodes[j].y)
  }

  /** The drawn edges keep the order of the connection list. */
  lemma {:induction false} DrawnConnectionsSublist(nodes: seq<Node>, connections: seq<Connection>)
    ensures Seqs.Sublist(DrawnConnections(nodes, connections), connections)
  {
    if connections != [] {
      DrawnConnectionsSublist(nodes, connections[1..]);
      var rest := DrawnConnections(nodes, connections[1..]);
      if Drawable(nodes, connections[0]) {
        var drawn := [connections[0]] + rest;
        assert drawn[1..] == rest && drawn[0] == connections[0];
      } else {
        assert DrawnConnections(nodes, connections) == rest;
        Seqs.SublistOfTail(rest, connections);
      }
    }
  }

  /** An edge is drawn exactly when both its endpoints are among the current
      nodes; the drawn edges keep the order of the connection list. */
  lemma DrawnConnectionsSpec(nodes: seq<Node>, connections: seq<Connection>, c: Connection)
    ensures Seqs.Sublist(DrawnConnections(nodes, connections), connections)
    ensures c in DrawnConnections(nodes, connections) <==>
      c in connections
      && (exists i :: 0 <= i < |nodes| && nodes[i].id == c.start)
      && (exists j :: 0 <= j < |nodes| && nodes[j].id == c.end)
  {
    DrawnConnectionsSublist(nodes, connections);
    DrawnOnlyDrawable(nodes, connections);
  }

  /** A connection is drawn as often as it is listed when its endpoints are
      present, and never otherwise, so duplicate edges are stroked again. */
  lemma {:induction false} DrawnConnectionsCount(nodes: seq<Node>, connections: seq<Connection>, c: Connection)
    ensures multiset(DrawnConnections(nodes, connections))[c] == if Drawable(nodes, c) then multiset(connections)[c] else 0
  {
    if connections != [] {
      DrawnConnectionsCount(nodes, connections[1..], c);
      assert connections == [connections[0]] + connections[1..];
    }
  }

  /** The label drawn inside a node: `title.substring(0, 8)`. */
  function Label(title: string): (r: string)
    ensures r <= title
    ensures |r| == if |title| < LabelLength then |title| else LabelLength
  {
    if |title| < LabelLength then title else title[..LabelLength]
  }

  // ---------------------------------------------------------------------------
  // The canvas component

  /** The component's state: nodes, the edge list, the node being dragged and
      the node a connection is being drawn from (at most one of each), and the
      hover tooltip. */
  class Canvas {
    var nodes: seq<Node>
    var connections: seq<Connection>
    var dragging: Option<EpisodeId>
    var connecting: Option<EpisodeId>
    var tooltip: Tooltip

    /** Mounting with `episodes`, after the derivation effect has run once. */
    constructor (episodes: seq<Episode>)
      ensures nodes == BuildNodes(episodes) && connections == FlattenConnections(episodes)
      ensures dragging == None && connecting == None && tooltip == HiddenTooltip
    {
      nodes := BuildNodes(episodes);
      connections := FlattenConnections(episodes);
      dragging := None;
      connecting := None;
      tooltip := HiddenTooltip;
    }

    /** The effect that re-derives nodes and edges when the episodes change; the
        interaction state is kept. */
    method SyncEpisodes(episodes: seq<Episode>)
      modifies this`nodes, this`connections
      ensures nodes == BuildNodes(episodes) && connections == FlattenConnections(episodes)
    {
      nodes := BuildNodes(episodes);
      connections := FlattenConnections(episodes);
    }

    /** Pointer down at (`x`, `y`). On a node, with Shift and no connection in
        progress, a connection starts from it; otherwise that node is dragged and
        becomes the only selected one. On empty space nothing changes. */
    method MouseDown(x: int, y: int, shift: bool)
      modifies this`nodes, this`dragging, this`connecting
      ensures SameEpisodes(old(nodes), nodes)
      ensures FindNode(old(nodes), x, y, None).None? ==>
        nodes == old(nodes) && dragging == old(dragging) && connecting == old(connecting)
      ensures FindNode(old(nodes), x, y, None).Some? && shift && old(connecting).None? ==>
        var n := old(nodes)[FindNode(old(nodes), x, y, None).value];
        connecting == Some(n.id) && nodes == old(nodes) && dragging == old(dragging)
      ensures FindNode(old(nodes), x, y, None).Some? && !(shift && old(connecting).None?) ==>
        var n := old(nodes)[FindNode(old(nodes), x, y, None).value];
        dragging == Some(n.id) && nodes == SelectOnly(old(nodes), n.id) && connecting == old(connecting)
    {
      var hit := FindNode(nodes, x, y, None);
      if hit.Some? {
        var clicked := nodes[hit.value];
        if shift && connecting.None? {
          connecting := Some(clicked.id);
        } else {
          dragging := Some(clicked.id);
          nodes := SelectOnly(nodes, clicked.id);
        }
      }
    }

    /** Pointer move. While dragging, the dragged node follows the pointer and
        nothing else moves; otherwise the hover tooltip is updated. */
    method MouseMove(x: int, y: int)
      modifies this`nodes, this`tooltip
      ensures SameEpisodes(old(nodes), nodes)
      ensures old(dragging).Some? ==> nodes == MoveNode(old(nodes), dragging.value, x, y) && tooltip == old(tooltip)
      ensures old(dragging).None? ==> nodes == old(nodes) && tooltip == Hover(nodes, x, y)
    {
      if dragging.Some? {
        nodes := MoveNode(nodes, dragging.value, x, y);
        return;
      }
      tooltip := Hover(nodes, x, y);
    }

    /** `handleConnect`: ask the host to persist the connection; append it to
        the edge list only if that succeeds. */
    method HandleConnect(startId: EpisodeId, endId: EpisodeId, outcome: Outcome) returns (call: Option<Call>)
      modifies this`connections
      ensures call == if outcome.NoCallback? then None else Some(Connect(startId, endId))
      ensures connections == if outcome.Resolves? then old(connections) + [Connection(startId, endId)] else old(connections)
    {
      call := None;
      if outcome != NoCallback {
        call := Some(Connect(startId, endId));
        if outcome == Resolves {
          connections := connections + [Connection(startId, endId)];
        }
      }
    }

    /** `handleNodeDragEnd`: ask the host to persist the drop position; if that
        fails, put the node back at its episode's persisted coordinates. */
    method HandleNodeDragEnd(nodeId: EpisodeId, x: int, y: int, outcome: Outcome) returns (call: Option<Call>)
      modifies this`nodes
      ensures SameEpisodes(old(nodes), nodes)
      ensures call == if outcome.NoCallback? then None else Some(UpdatePosition(nodeId, x, y))
      ensures nodes == if outcome.Rejects? then Rollback(old(nodes), nodeId) else old(nodes)
    {
      call := None;
      if outcome != NoCallback {
        call := Some(UpdatePosition(nodeId, x, y));
        if outcome == Rejects {
          nodes := Rollback(nodes, nodeId);
        }
      }
    }

    /** Pointer up. A connection in progress ends: if the pointer is over a node
        other than its source, the host is asked to connect them, and the edge is
        kept only on success. Otherwise a drag in progress ends: the host is
        asked to persist the drop position, and the node is rolled back on
        failure. `outcome` says how the callback invoked ends. */
    method MouseUp(x: int, y: int, outcome: Outcome) returns (call: Option<Call>)
      modifies this`nodes, this`connections, this`dragging, this`connecting
      ensures SameEpisodes(old(nodes), nodes)
      ensures old(connecting).Some? ==>
        && connecting == None && dragging == old(dragging) && nodes == old(nodes)
        && match FindNode(old(nodes), x, y, old(connecting))
           case None => call == None && connections == old(connections)
           case Some(t) =>
             var edge := Connection(old(connecting).value, old(nodes)[t].id);
             && call == (if outcome.NoCallback? then None else Some(Connect(edge.start, edge.end)))
             && connections == (if outcome.Resolves? then old(connections) + [edge] else old(connections))
      ensures old(connecting).None? && old(dragging).Some? ==>
        var d := old(dragging).value;
        && dragging == None && connecting == None && connections == old(connections)
        && call == (if outcome.NoCallback? then None else Some(UpdatePosition(d, x, y)))
        && nodes == (if outcome.Rejects? then Rollback(old(nodes), d) else old(nodes))
      ensures old(connecting).None? && old(dragging).None? ==>
        call == None && nodes == old(nodes) && connections == old(connections) && dragging == None && connecting == None
    {
      call := None;
      if connecting.Some? {
        var target := FindNode(nodes, x, y, connecting);
        if target.Some? {
          call := HandleConnect(connecting.value, nodes[target.value].id, outcome);
        }
        connecting := None;
      } else if dragging.Some? {
        call := HandleNodeDragEnd(dragging.value, x, y, outcome);
        dragging := None;
      }
    }

    /** The edges the render loop draws from the current state. */
    function Drawn(): (r: seq<Connection>)
      reads this
      ensures Seqs.Sublist(r, connections)
      ensures forall c :: c in r <==> c in connections && Drawable(nodes, c)
    {
      DrawnOnlyDrawable(nodes, connections);
      DrawnConnectionsSublist(nodes, connections);
      DrawnConnections(nodes, connections)
    }
  }

  lemma {:induction false} DrawnOnlyDrawable(nodes: seq<Node>, connections: seq<Connection>)
    ensures forall c :: c in DrawnConnections(nodes, connections) <==> c in connections && Drawable(nodes, c)
  {
    if connections != [] {
      DrawnOnlyDrawable(nodes, connections[1..]);
      assert connections == [connections[0]] + connections[1..];
    }
  }
}
