/**
 * The parsed XSPF document tree, as the XML parser hands it over. Only the nodes
 * the exporter reads are modelled: the `playlist` root, its `trackList` child, the
 * `track` entries under it and each track's `location`.
 */
module Document {
  import opened Wrappers

  /** One `<track>` entry; `location` is absent when the entry has none. */
  datatype Track = Track(location: Option<string>)

  /** The `<trackList>` node with its `<track>` children in document order. */
  datatype TrackList = TrackList(track: seq<Track>)

  /** The `<playlist>` node; `trackList` is absent when the document lacks one. */
  datatype PlaylistNode = PlaylistNode(trackList: Option<TrackList>)

  /** The whole tree; `Dom(None)` is the empty object `{}`. */
  datatype Dom = Dom(playlist: Option<PlaylistNode>)
}
