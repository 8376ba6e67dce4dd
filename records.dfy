/** The records the timeline, the episode library and the narrative store share:
    a narrative episode as the store returns it, its outgoing connections, and
    the rows of the `episode_tags` and `episode_connections` tables. */
module Records {

  datatype Option<T> = None | Some(value: T)

  /** Episode identifiers are opaque; only equality is used. */
  type EpisodeId = string

  /** A directed link from episode `start` to episode `end`. */
  datatype Connection = Connection(start: EpisodeId, end: EpisodeId)

  /** A `narrative_episodes` row. A `None` field is a column holding `null`;
      `tags` and `connections` are `None` until the store joins them in. */
  datatype Episode = Episode(
    id: EpisodeId,
    account_id: string,
    title: string,
    description: Option<string>,
    closure_type: Option<string>,
    arc_name: Option<string>,
    position_x: Option<int>,
    position_y: Option<int>,
    is_archived: bool,
    tags: Option<seq<string>>,
    connections: Option<seq<Connection>>)

  /** An `episode_tags` row. */
  datatype TagRow = TagRow(episode_id: EpisodeId, tag_name: string)

  /** An `episode_connections` row. */
  datatype ConnectionRow = ConnectionRow(from_episode_id: EpisodeId, to_episode_id: EpisodeId)

  /** An error reported by the data store; only carried along. */
  datatype StoreError = StoreError(message: string)
}
