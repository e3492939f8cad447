/**
 * The XSPF playlist reader (xspf-reader.js): a reader object holding the parsed
 * document and the name of the file it came from, its minimal validation, and
 * its two read-only views. Reading the file goes through the in-memory file
 * table; the XML parser (with entity decoding) is passed in as a function.
 */
module XspfReader {
  import opened Wrappers
  import opened Document
  import opened FileSystem

  /** The two errors `validate` throws. */
  datatype ValidationError = NotXspf | MissingTrackList {
    /** The error's message text, as thrown. */
    function Message(): string {
      match this
      case NotXspf => "Playlist is not in XSPF format."
      case MissingTrackList => "Track list is missing from playlist."
    }
  }

  /** Why `loadFile` rejects: the file could not be read, or it is not a valid playlist. */
  datatype LoadError = ReadFailed(fileName: string) | Invalid(validationError: ValidationError)

  class XspfPlaylist {
    var dom: Dom
    var fileName: Option<string>

    /** A fresh reader holds the empty document `{}` and no file name. */
    constructor ()
      ensures dom == Dom(None) && fileName == None
    {
      dom := Dom(None);
      fileName := None;
    }

    /**
     * `validate`: the `playlist` node is checked first, then its `trackList`;
     * nothing below `trackList` is looked at.
     */
    static function Validate(d: Dom): (r: Outcome<ValidationError>)
      ensures r == Fail(NotXspf) <==> d.playlist.None?
      ensures r == Fail(MissingTrackList) <==> d.playlist.Some? && d.playlist.value.trackList.None?
      ensures r == Pass <==> d.playlist.Some? && d.playlist.value.trackList.Some?
    {
      if d.playlist.None? then Fail(NotXspf)
      else if d.playlist.value.trackList.None? then Fail(MissingTrackList)
      else Pass
    }

    /**
     * `loadFile(name)`: a read error rejects and changes nothing; otherwise the
     * file name and the parsed document are stored first, and only then
     * validated, so a rejected document stays loaded. Resolves with the reader.
     */
    method LoadFile(fs: Fs, name: string, parseXml: Bytes -> Dom) returns (r: Result<XspfPlaylist, LoadError>)
      modifies this
      ensures name !in fs.files ==> r == Err(ReadFailed(name))
      ensures name !in fs.files ==> dom == old(dom) && fileName == old(fileName)
      ensures name in fs.files ==> fileName == Some(name) && dom == parseXml(fs.files[name])
      ensures name in fs.files ==> (r.Ok? <==> Validate(dom).Pass?)
      ensures name in fs.files && r.Err? ==> r.error == Invalid(Validate(dom).error)
      ensures r.Ok? ==> r.value == this
    {
      if name !in fs.files {
        return Err(ReadFailed(name));
      }
      fileName := Some(name);
      dom := parseXml(fs.files[name]);
      var valid := Validate(dom);
      if valid.Fail? {
        return Err(Invalid(valid.error));
      }
      r := Ok(this);
    }

    /**
     * The `tracks` getter, `dom.playlist.trackList.track`: available exactly when
     * the document passes validation (otherwise the property access throws).
     */
    function Tracks(): (t: Option<seq<Track>>)
      reads this
      ensures t.Some? <==> Validate(dom).Pass?
      ensures t.Some? ==> t.value == dom.playlist.value.trackList.value.track
    {
      match dom.playlist
      case None => None
      case Some(p) =>
        match p.trackList
        case None => None
        case Some(list) => Some(list.track)
    }

    /** The `document` getter: the stored tree itself. */
    function Document(): (d: Dom)
      reads this
      ensures d == dom
    {
      dom
    }
  }

  /** A document whose playlist has no track list is refused with the message the test expects. */
  lemma MissingTrackListMessage()
    ensures XspfPlaylist.Validate(Dom(Some(PlaylistNode(None)))) == Fail(MissingTrackList)
    ensures XspfPlaylist.Validate(Dom(None)) == Fail(NotXspf)
    ensures "Track list is missing" <= MissingTrackList.Message()
  {
  }

  /** After a successful load the track list is available and is the one in the file. */
  method LoadThenTracks(fs: Fs, name: string, parseXml: Bytes -> Dom) returns (tracks: Option<seq<Track>>)
    ensures name in fs.files && XspfPlaylist.Validate(parseXml(fs.files[name])).Pass?
        ==> tracks == Some(parseXml(fs.files[name]).playlist.value.trackList.value.track)
    ensures name !in fs.files || XspfPlaylist.Validate(parseXml(fs.files[name])).Fail? ==> tracks == None
  {
    var reader := new XspfPlaylist();
    var loaded := reader.LoadFile(fs, name, parseXml);
    tracks := if loaded.Ok? then loaded.value.Tracks() else None;
  }
}
