/** Storing and loading narrative episodes. Creating an episode writes one
    `narrative_episodes` row, then its tag rows, then its connection rows;
    loading reads the three tables and joins tags and outgoing connections back
    onto each episode by id. The store's replies are inputs here. */
module NarrativeStore {
  import opened Records
  import Timeline

  /** What the episode form hands to `createNarrativeEpisode`. */
  datatype NewEpisode = NewEpisode(
    accountId: string,
    title: string,
    description: Option<string>,
    closure: Option<string>,
    tags: seq<string>,
    arc: Option<string>,
    x: int,
    y: int,
    connections: seq<Connection>)

  /** The row inserted into `narrative_episodes` (its timestamp is left out). */
  datatype EpisodeInsert = EpisodeInsert(
    account_id: string,
    title: string,
    description: Option<string>,
    closure_type: Option<string>,
    arc_name: Option<string>,
    position_x: int,
    position_y: int)

  /** An insert request sent to the store. */
  datatype Insert =
    | InsertEpisode(episodeRow: EpisodeInsert)
    | InsertTags(tagRows: seq<TagRow>)
    | InsertConnections(connectionRows: seq<ConnectionRow>)

  /** A store reply carrying data. */
  datatype Reply<T> = Ok(value: T) | Failed(error: StoreError)

  /** How the store answers the inserts of one creation: the stored episode row
      (with its new id) or an error, then an optional error for each later insert. */
  datatype CreateReplies = CreateReplies(episode: Reply<Episode>, tagsError: Option<StoreError>, connectionsError: Option<StoreError>)

  /** `{ episode, error }` as `createNarrativeEpisode` returns it, with the
      inserts it sent. */
  datatype CreateRun = CreateRun(requests: seq<Insert>, episode: Option<Episode>, error: Option<StoreError>)

  /** How the store answers the three reads of a load. */
  datatype FetchReplies = FetchReplies(episodes: Reply<seq<Episode>>, tags: Reply<seq<TagRow>>, connections: Reply<seq<ConnectionRow>>)

  /** `{ episodes, error }` as `getNarrativeEpisodes` returns it. */
  datatype FetchResult = FetchResult(episodes: seq<Episode>, error: Option<StoreError>)

  // ---------------------------------------------------------------------------
  // Rows built on creation

  /** The `narrative_episodes` row for the form's input: `closure` is stored as
      `closure_type`, `arc` as `arc_name`, and the position as two columns. */
  function EpisodeRowOf(input: NewEpisode): (row: EpisodeInsert)
    ensures row.account_id == input.accountId && row.title == input.title && row.description == input.description
    ensures row.closure_type == input.closure && row.arc_name == input.arc
    ensures row.position_x == input.x && row.position_y == input.y
  {
    EpisodeInsert(input.accountId, input.title, input.description, input.closure, input.arc, input.x, input.y)
  }

  /** One tag row per tag, in order, each for episode `id`. */
  function TagRowsFor(id: EpisodeId, tags: seq<string>): (rows: seq<TagRow>)
    ensures |rows| == |tags|
    ensures forall i :: 0 <= i < |tags| ==> rows[i].episode_id == id && rows[i].tag_name == tags[i]
  {
    if tags == [] then [] else [TagRow(id, tags[0])] + TagRowsFor(id, tags[1..])
  }

  /** `{start, end}` as an `episode_connections` row. */
  function ToRow(c: Connection): ConnectionRow {
    ConnectionRow(c.start, c.end)
  }

  /** An `episode_connections` row as `{start, end}`. */
  function FromRow(r: ConnectionRow): Connection {
    Connection(r.from_episode_id, r.to_episode_id)
  }

  function ConnectionRows(connections: seq<Connection>): (rows: seq<ConnectionRow>)
    ensures |rows| == |connections|
  {
    if connections == [] then [] else [ToRow(connections[0])] + ConnectionRows(connections[1..])
  }

  function FromRows(rows: seq<ConnectionRow>): (connections: seq<Connection>)
    ensures |connections| == |rows|
  {
    if rows == [] then [] else [FromRow(rows[0])] + FromRows(rows[1..])
  }

  /** Mapping connections to rows and back gives the connections again. */
  lemma {:induction false} ConnectionRowsRoundTrip(connections: seq<Connection>)
    ensures FromRows(ConnectionRows(connections)) == connections
  {
    if connections != [] {
      ConnectionRowsRoundTrip(connections[1..]);
      assert ConnectionRows(connections)[1..] == ConnectionRows(connections[1..]);
    }
  }

  /** Mapping rows to connections and back gives the rows again. */
  lemma {:induction false} FromRowsRoundTrip(rows: seq<ConnectionRow>)
    ensures ConnectionRows(FromRows(rows)) == rows
  {
    if rows != [] {
      FromRowsRoundTrip(rows[1..]);
      assert FromRows(rows)[1..] == FromRows(rows[1..]);
    }
  }

  /** `createNarrativeEpisode`: insert the episode row; then, only when there
      are any, the tag rows under the new id and the connection rows; the
      first failure ends the run with `{episode: null, error}`. */
  function CreateEpisode(input: NewEpisode, replies: CreateReplies): (run: CreateRun)
    ensures |run.requests| >= 1 && run.requests[0] == InsertEpisode(EpisodeRowOf(input))
    ensures run.episode.Some? <==> run.error.None?
    ensures replies.episode.Failed? ==> run.requests == [InsertEpisode(EpisodeRowOf(input))] && run.error == Some(replies.episode.error)
    ensures replies.episode.Ok? ==>
      var id := replies.episode.value.id;
      && (InsertTags(TagRowsFor(id, input.tags)) in run.requests <==> |input.tags| > 0)
      && ((InsertConnections(ConnectionRows(input.connections)) in run.requests)
          <==> |input.connections| > 0 && (|input.tags| == 0 || replies.tagsError.None?))
    ensures run.episode.Some? ==> run.episode == Some(replies.episode.value)
    ensures run.episode.Some? <==>
      && replies.episode.Ok?
      && (|input.tags| == 0 || replies.tagsError.None?)
      && (|input.connections| == 0 || replies.connectionsError.None?)
    ensures replies.episode.Ok? && |input.tags| > 0 && replies.tagsError.Some? ==> run.error == replies.tagsError
    ensures (replies.episode.Ok? && (|input.tags| == 0 || replies.tagsError.None?)
             && |input.connections| > 0 && replies.connectionsError.Some?)
      ==> run.error == replies.connectionsError
    ensures replies.episode.Ok? ==>
      var id := replies.episode.value.id;
      var tagsPassed := |input.tags| == 0 || replies.tagsError.None?;
      run.requests ==
        [InsertEpisode(EpisodeRowOf(input))]
        + (if |input.tags| > 0 then [InsertTags(TagRowsFor(id, input.tags))] else [])
        + (if |input.connections| > 0 && tagsPassed then [InsertConnections(ConnectionRows(input.connections))] else [])
  {
    var first := InsertEpisode(EpisodeRowOf(input));
    match replies.episode
    case Failed(err) => CreateRun([first], None, Some(err))
    case Ok(stored) =>
      var tagRequests := if |input.tags| > 0 then [InsertTags(TagRowsFor(stored.id, input.tags))] else [];
      if |input.tags| > 0 && replies.tagsError.Some? then
        CreateRun([first] + tagRequests, None, replies.tagsError)
      else
        var connectionRequests :=
          if |input.connections| > 0 then [InsertConnections(ConnectionRows(input.connections))] else [];
        var requests := [first] + tagRequests + connectionRequests;
        if |input.connections| > 0 && replies.connectionsError.Some? then
          CreateRun(requests, None, replies.connectionsError)
        else
          CreateRun(requests, Some(stored), None)
  }

  // ---------------------------------------------------------------------------
  // The join on load

  /** The tag names of the rows for episode `id`, in row order. */
  function TagsFor(id: EpisodeId, rows: seq<TagRow>): (tags: seq<string>)
    ensures |tags| <= |rows|
  {
    if rows == [] then []
    else (if rows[0].episode_id == id then [rows[0].tag_name] else []) + TagsFor(id, rows[1..])
  }

  /** The rows leaving episode `id`, as `{start, end}`, in row order. */
  function ConnectionsFor(id: EpisodeId, rows: seq<ConnectionRow>): (connections: seq<Connection>)
    ensures forall i :: 0 <= i < |connections| ==> connections[i].start == id
  {
    if rows == [] then []
    else (if rows[0].from_episode_id == id then [FromRow(rows[0])] else []) + ConnectionsFor(id, rows[1..])
  }

  function WithDetails(e: Episode, tagRows: seq<TagRow>, connectionRows: seq<ConnectionRow>): Episode {
    e.(tags := Some(TagsFor(e.id, tagRows)), connections := Some(ConnectionsFor(e.id, connectionRows)))
  }

  /** `episodes.map(episode => ({...episode, tags, connections}))`. */
  function Assemble(episodes: seq<Episode>, tagRows: seq<TagRow>, connectionRows: seq<ConnectionRow>): (r: seq<Episode>)
    ensures |r| == |episodes|
  {
    if episodes == [] then []
    else [WithDetails(episodes[0], tagRows, connectionRows)] + Assemble(episodes[1..], tagRows, connectionRows)
  }

  /** The assembled list keeps the episodes' length, order and every field
      other than `tags` and `connections`, which become the joined rows. */
  lemma {:induction false} AssembleSpec(episodes: seq<Episode>, tagRows: seq<TagRow>, connectionRows: seq<ConnectionRow>)
    ensures var r := Assemble(episodes, tagRows, connectionRows);
      && |r| == |episodes|
      && forall i :: 0 <= i < |r| ==>
           && r[i].(tags := episodes[i].tags, connections := episodes[i].connections) == episodes[i]
           && r[i].tags == Some(TagsFor(episodes[i].id, tagRows))
           && r[i].connections == Some(ConnectionsFor(episodes[i].id, connectionRows))
  {
    if episodes != [] {
      AssembleSpec(episodes[1..], tagRows, connectionRows);
      var r := Assemble(episodes, tagRows, connectionRows);
      assert forall i :: 1 <= i < |r| ==> r[i] == Assemble(episodes[1..], tagRows, connectionRows)[i - 1];
    }
  }

  /** A tag belongs to episode `id` once for every row that pairs them. */
  lemma {:induction false} TagsForCount(id: EpisodeId, rows: seq<TagRow>, tag: string)
    ensures multiset(TagsFor(id, rows))[tag] == multiset(rows)[TagRow(id, tag)]
  {
    if rows != [] {
      TagsForCount(id, rows[1..], tag);
      var rest := TagsFor(id, rows[1..]);
      if rows[0].episode_id == id {
        assert TagsFor(id, rows) == [rows[0].tag_name] + rest;
      } else {
        assert TagsFor(id, rows) == rest;
      }
      assert rows == [rows[0]] + rows[1..];
    }
  }

  /** The join distributes over concatenated rows. */
  lemma {:induction false} TagsForAppend(id: EpisodeId, a: seq<TagRow>, b: seq<TagRow>)
    ensures TagsFor(id, a + b) == TagsFor(id, a) + TagsFor(id, b)
  {
    if a != [] {
      TagsForAppend(id, a[1..], b);
      assert (a + b)[1..] == a[1..] + b;
    } else {
      assert a + b == b;
    }
  }

  /** The tag rows written for episode `id` read back as its tags; those written
      for another episode read back as nothing. */
  lemma {:induction false} TagRowsRoundTrip(id: EpisodeId, other: EpisodeId, tags: seq<string>)
    requires other != id
    ensures TagsFor(id, TagRowsFor(id, tags)) == tags
    ensures TagsFor(id, TagRowsFor(other, tags)) == []
  {
    if tags != [] {
      TagRowsRoundTrip(id, other, tags[1..]);
      assert TagRowsFor(id, tags)[1..] == TagRowsFor(id, tags[1..]);
      assert TagRowsFor(other, tags)[1..] == TagRowsFor(other, tags[1..]);
    }
  }

  /** A connection is loaded onto episode `id` exactly when a row leaving `id`
      stores it. */
  lemma {:induction false} ConnectionsForMembership(id: EpisodeId, rows: seq<ConnectionRow>, c: Connection)
    ensures c in ConnectionsFor(id, rows) <==> c.start == id && ToRow(c) in rows
  {
    if rows != [] {
      ConnectionsForMembership(id, rows[1..], c);
      assert rows == [rows[0]] + rows[1..];
    }
  }

  /** A connection is loaded onto episode `id` once for every row storing it
      when it leaves `id`, and never otherwise: duplicate rows are kept. */
  lemma {:induction false} ConnectionsForCount(id: EpisodeId, rows: seq<ConnectionRow>, c: Connection)
    ensures multiset(ConnectionsFor(id, rows))[c] == if c.start == id then multiset(rows)[ToRow(c)] else 0
  {
    if rows != [] {
      ConnectionsForCount(id, rows[1..], c);
      assert rows == [rows[0]] + rows[1..];
    }
  }

  /** The connections join distributes over concatenated rows, so row order is kept. */
  lemma {:induction false} ConnectionsForAppend(id: EpisodeId, a: seq<ConnectionRow>, b: seq<ConnectionRow>)
    ensures ConnectionsFor(id, a + b) == ConnectionsFor(id, a) + ConnectionsFor(id, b)
  {
    if a != [] {
      ConnectionsForAppend(id, a[1..], b);
      assert (a + b)[1..] == a[1..] + b;
    } else {
      assert a + b == b;
    }
  }

  /** Connections saved for an episode and loaded back are the same list, when
      they all leave that episode. */
  lemma {:induction false} ConnectionRowsLoadBack(id: EpisodeId, connections: seq<Connection>)
    requires forall i :: 0 <= i < |connections| ==> connections[i].start == id
    ensures ConnectionsFor(id, ConnectionRows(connections)) == connections
  {
    if connections != [] {
      ConnectionRowsLoadBack(id, connections[1..]);
      assert ConnectionRows(connections)[1..] == ConnectionRows(connections[1..]);
    }
  }

  /** `getNarrativeEpisodes`: the joined episodes when all three reads
      succeed, otherwise `{episodes: [], error}` with the first error. */
  function GetEpisodes(replies: FetchReplies): (r: FetchResult)
    ensures r.error.Some? ==> r.episodes == []
    ensures r.error.None? <==> replies.episodes.Ok? && replies.tags.Ok? && replies.connections.Ok?
    ensures r.error.None? ==> r.episodes == Assemble(replies.episodes.value, replies.tags.value, replies.connections.value)
    ensures replies.episodes.Failed? ==> r.error == Some(replies.episodes.error)
    ensures replies.episodes.Ok? && replies.tags.Failed? ==> r.error == Some(replies.tags.error)
    ensures replies.episodes.Ok? && replies.tags.Ok? && replies.connections.Failed? ==> r.error == Some(replies.connections.error)
  {
    match replies.episodes
    case Failed(e) => FetchResult([], Some(e))
    case Ok(episodes) =>
      match replies.tags
      case Failed(e) => FetchResult([], Some(e))
      case Ok(tagRows) =>
        match replies.connections
        case Failed(e) => FetchResult([], Some(e))
        case Ok(connectionRows) => FetchResult(Assemble(episodes, tagRows, connectionRows), None)
  }

  /** On the canvas, every edge of a loaded episode list leaves one of the loaded
      episodes. */
  lemma LoadedEdgesLeaveTheirEpisode(episodes: seq<Episode>, tagRows: seq<TagRow>, connectionRows: seq<ConnectionRow>, c: Connection)
    requires c in Timeline.FlattenConnections(Assemble(episodes, tagRows, connectionRows))
    ensures exists i :: 0 <= i < |episodes| && episodes[i].id == c.start
  {
    var loaded := Assemble(episodes, tagRows, connectionRows);
    AssembleSpec(episodes, tagRows, connectionRows);
    Timeline.FlattenConnectionsSpec(loaded, c);
    var i :| 0 <= i < |loaded| && loaded[i].connections.Some? && c in loaded[i].connections.value;
    assert loaded[i].id == episodes[i].id;
  }
}
