/**
 * The playback switch of the web client. Every poll fetches the content
 * index; when automatic play is on and the newest entry is not the one
 * playing (compared strictly), the client checks that the entry's playlist
 * is published and loads it; the entry becomes the one playing when the HLS
 * player reports the manifest parsed. Clicking an entry of the rendered index
 * loads it by hand and switches automatic play off for good.
 *
 * The storage and website requests, the HLS player and the DOM are foreign:
 * their answers are parameters of the methods of WebPlayer, and the DOM slots
 * are fields.
 */
module WebClient {
  import opened Strings
  import ContentPatterns
  import ContentIndex
  import AndroidClient

  /** How JavaScript renders a possibly `undefined` id in a string concatenation. */
  function Text(id: Option<string>): string
  {
    match id
    case None => "undefined"
    case Some(s) => s
  }

  /** `contents[0]`: undefined for an empty index. */
  function Head(contents: seq<string>): Option<string>
  {
    if |contents| == 0 then None else Some(contents[0])
  }

  /** A poll of an index the backend rebuilt always finds an entry, and it is the greatest one. */
  lemma RebuiltIndexHasHead(index: seq<string>, fileList: seq<string>, videoId: string)
    requires ContentIndex.IsContentIndexFor(index, fileList, videoId)
    ensures Head(index).Some?
    ensures forall e :: e in ContentIndex.Elements(index) && e != Head(index).value ==> Less(e, Head(index).value)
  {
    ContentIndex.IndexHeadIsGreatest(index, fileList, videoId);
    forall e | e in ContentIndex.Elements(index) && e != index[0] ensures Less(e, index[0]) {
      var k :| 0 <= k < |index| && index[k] == e;
    }
  }

  /** `CONTENTS_FOLDER + contentId + PLAYLIST_FILENAME`, in loadVideo and checkIfContentFileExists alike. */
  function PlaylistUrl(contentId: string): string
  {
    "content/" + contentId + "/default.m3u8"
  }

  /** Both clients play the playlist the transcoder writes into the video's output folder. */
  lemma PlaylistOfVideo(hostingUrl: string, videoId: string)
    ensures PlaylistUrl(videoId) == ContentIndex.OutputPrefix(videoId) + "default.m3u8"
    ensures AndroidClient.PlaybackUri(hostingUrl, videoId) == hostingUrl + "/" + PlaylistUrl(videoId)
  {
  }

  /** The playlist of a new video is indexed under that video's id. */
  lemma PlaylistIndexedAsVideo(nowMillis: nat, principalId: string)
    requires ContentPatterns.NoLineTerminator(principalId)
    ensures var v := ContentIndex.VideoId(nowMillis, principalId);
      ContentPatterns.InContentFolder(PlaylistUrl(v)) && ContentPatterns.FolderName(PlaylistUrl(v)) == v
  {
    var v := ContentIndex.VideoId(nowMillis, principalId);
    PlaylistName();
    ContentIndex.OutputIndexedAsVideo(nowMillis, principalId, "default.m3u8");
    PlaylistOfVideo("", v);
  }

  lemma PlaylistName()
    ensures ContentPatterns.NoLineTerminator("default.m3u8") && '/' !in "default.m3u8"
  {
  }

  /** The link updateContentsIndex renders for one entry. */
  function Link(filename: string): string
  {
    "<a href=\"javascript:autoPlay = false; loadVideo('" + filename + "');\">" + filename + "</a><br/>"
  }

  /** The links of all entries, in index order. */
  function ContentLinks(contents: seq<string>): string
  {
    if contents == [] then "" else ContentLinks(contents[..|contents| - 1]) + Link(contents[|contents| - 1])
  }

  /** The rendering of an index is the rendering of its parts, one after the other. */
  lemma {:induction false} ContentLinksAppend(a: seq<string>, b: seq<string>)
    ensures ContentLinks(a + b) == ContentLinks(a) + ContentLinks(b)
  {
    if b != [] {
      var last := b[|b| - 1];
      assert (a + b)[..|a + b| - 1] == a + b[..|b| - 1];
      ContentLinksAppend(a, b[..|b| - 1]);
    } else {
      assert a + b == a;
    }
  }

  /** One link per entry: the rendering of `[f] + rest` opens with the link of f. */
  lemma ContentLinksFirst(f: string, rest: seq<string>)
    ensures ContentLinks([f] + rest) == Link(f) + ContentLinks(rest)
  {
    ContentLinksAppend([f], rest);
    assert ContentLinks([f]) == ContentLinks([]) + Link(f);
  }

  /** An error as the callbacks see it: its `code`, if any, and its string rendering. */
  datatype JsError = JsError(code: Option<string>, text: string)

  /** What `JSON.parse` makes of the index fetched from storage. */
  datatype ParsedIndex = IndexArray(entries: seq<string>) | ParseError(error: JsError)

  /** The outcome of `loadFileFromS3` for the index. */
  datatype IndexFetch = FetchFailed(error: JsError) | Fetched(parsed: ParsedIndex)

  /** The follow-up request a poll issues. */
  datatype PollAction = NoCheck | CheckPlaylist(contentId: Option<string>, url: string)

  /** `err.code && err.code.includes('NoSuchKey')`. */
  predicate IsMissingIndex(error: JsError)
  {
    error.code.Some? && error.code.value != "" && Contains(error.code.value, "NoSuchKey")
  }

  /** The text `showError` is given for an error of the index load. */
  function IndexErrorText(error: JsError): string
  {
    if IsMissingIndex(error) then "CONTENT INDEX IS NOT AVAILABLE" else error.text
  }

  /** `'ERROR: type = ' + type + ', details = ' + details + reason`, the reason only when truthy. */
  function HlsErrorText(errorType: string, details: string, reason: Option<string>): string
  {
    var suffix := if reason.Some? && reason.value != "" then ", reason = " + reason.value else "";
    "ERROR: type = " + errorType + ", details = " + details + suffix
  }

  /** For a given type and details, the error text shows which truthy reason the player gave. */
  lemma HlsErrorReasonRecoverable(errorType: string, details: string, r1: string, r2: string)
    requires r1 != "" && r2 != ""
    requires HlsErrorText(errorType, details, Some(r1)) == HlsErrorText(errorType, details, Some(r2))
    ensures r1 == r2
  {
    var prefix := "ERROR: type = " + errorType + ", details = " + details + ", reason = ";
    assert HlsErrorText(errorType, details, Some(r1)) == prefix + r1;
    assert HlsErrorText(errorType, details, Some(r2)) == prefix + r2;
    assert (prefix + r1)[|prefix|..] == r1;
    assert (prefix + r2)[|prefix|..] == r2;
  }

  /**
   * The error text shows the player's `data.type` and `data.details` whole,
   * at fixed places, and a truthy reason makes it longer than the text
   * without one, so a reason is never dropped.
   */
  lemma HlsErrorTextFields(errorType: string, details: string, reason: Option<string>)
    ensures var r := HlsErrorText(errorType, details, reason);
      var n := 26 + |errorType| + |details|;
      |r| >= n &&
      r[..14] == "ERROR: type = " && r[14..14 + |errorType|] == errorType &&
      r[14 + |errorType|..26 + |errorType|] == ", details = " && r[26 + |errorType|..n] == details &&
      (reason.Some? && reason.value != "" <==> |r| > n) &&
      (|r| > n ==> r[n..] == ", reason = " + reason.value)
  {
    var head := "ERROR: type = " + errorType + ", details = " + details;
    assert |head| == 26 + |errorType| + |details|;
    assert head[..14] == "ERROR: type = ";
    assert head[14..14 + |errorType|] == errorType;
    assert head[14 + |errorType|..26 + |errorType|] == ", details = ";
    assert head[26 + |errorType|..] == details;
    var r := HlsErrorText(errorType, details, reason);
    if reason.Some? && reason.value != "" {
      assert r == head + (", reason = " + reason.value);
      assert r[..|head|] == head;
      assert r[|head|..] == ", reason = " + reason.value;
    } else {
      assert r == head;
    }
  }

  class WebPlayer {
    var contents: seq<string>
    var loadingContentId: Option<string>
    var playingContentId: Option<string>
    var autoPlay: bool
    /** An HLS player exists. */
    var hlsCreated: bool
    /** The playlist URL last handed to the HLS player. */
    var source: Option<string>
    /** The DOM slots `now-playing`, `coming-soon`, `error` and `contents`. */
    var nowPlaying: string
    var comingSoon: string
    var errorText: string
    var contentsHtml: string

    /** The rendered index is always that of the current contents, and a source is only loaded into a player. */
    predicate Valid()
      reads this`contents, this`contentsHtml, this`source, this`hlsCreated
    {
      contentsHtml == ContentLinks(contents) && (source.Some? ==> hlsCreated)
    }

    constructor ()
      ensures Valid() && autoPlay && contents == []
      ensures loadingContentId == None && playingContentId == None
      ensures !hlsCreated && source == None
      ensures nowPlaying == "" && comingSoon == "" && errorText == ""
    {
      contents := [];
      loadingContentId := None;
      playingContentId := None;
      autoPlay := true;
      hlsCreated := false;
      source := None;
      nowPlaying := "";
      comingSoon := "";
      errorText := "";
      contentsHtml := "";
    }

    /** `updateContentsIndex()`: one link per entry, in index order. */
    method UpdateContentsIndex()
      modifies this`contentsHtml
      ensures contentsHtml == ContentLinks(contents)
    {
      var linkContents := "";
      var i := 0;
      while i < |contents|
        invariant i <= |contents|
        invariant linkContents == ContentLinks(contents[..i])
      {
        assert contents[..i + 1][..i] == contents[..i];
        linkContents := linkContents + Link(contents[i]);
        i := i + 1;
      }
      assert contents[..i] == contents;
      contentsHtml := linkContents;
    }

    /**
     * `loadContentsIndex(callback)`, fed the outcome of the index load: a
     * parsed index replaces the contents, is rendered and clears the error
     * slot; otherwise nothing changes and the error goes to the callback.
     */
    method LoadContentsIndex(fetch: IndexFetch) returns (error: Option<JsError>)
      requires Valid()
      modifies this`contents, this`contentsHtml, this`errorText
      ensures Valid()
      ensures fetch.Fetched? && fetch.parsed.IndexArray? ==>
        contents == fetch.parsed.entries && errorText == "" && error == None
      ensures fetch.FetchFailed? ==>
        contents == old(contents) && errorText == old(errorText) && error == Some(fetch.error)
      ensures fetch.Fetched? && fetch.parsed.ParseError? ==>
        contents == old(contents) && errorText == old(errorText) && error == Some(fetch.parsed.error)
    {
      match fetch
      case FetchFailed(e) =>
        error := Some(e);
      case Fetched(ParseError(e)) =>
        error := Some(e);
      case Fetched(IndexArray(entries)) =>
        contents := entries;
        UpdateContentsIndex();
        errorText := "";
        error := None;
    }

    /**
     * One `doPollingLoopIteration()`: load the index; an error is shown, the
     * missing index with its own text. The poll asks for the newest entry's
     * playlist only when automatic play is on and that entry is not the one
     * playing.
     */
    method PollIteration(fetch: IndexFetch) returns (action: PollAction)
      requires Valid()
      modifies this`contents, this`contentsHtml, this`errorText
      ensures Valid()
      ensures fetch.Fetched? && fetch.parsed.IndexArray? ==>
        contents == fetch.parsed.entries && errorText == ""
      ensures fetch.FetchFailed? ==>
        contents == old(contents) && errorText == IndexErrorText(fetch.error)
      ensures fetch.Fetched? && fetch.parsed.ParseError? ==>
        contents == old(contents) && errorText == IndexErrorText(fetch.parsed.error)
      ensures action.CheckPlaylist? <==>
        fetch.Fetched? && fetch.parsed.IndexArray? && autoPlay && playingContentId != Head(fetch.parsed.entries)
      ensures action.CheckPlaylist? ==>
        action.contentId == Head(contents) && action.url == PlaylistUrl(Text(Head(contents)))
    {
      var error := LoadContentsIndex(fetch);
      if error.Some? {
        errorText := IndexErrorText(error.value);
        action := NoCheck;
      } else {
        var latest := Head(contents);
        if autoPlay && playingContentId != latest {
          action := CheckPlaylist(latest, PlaylistUrl(Text(latest)));
        } else {
          action := NoCheck;
        }
      }
    }

    /**
     * `loadVideo(contentId)` with `setupVideo`: a fresh HLS player loads the
     * playlist and the id becomes the one loading; without HLS support only
     * the error is shown.
     */
    method LoadVideo(contentId: Option<string>, hlsSupported: bool)
      requires Valid()
      modifies this`hlsCreated, this`loadingContentId, this`source, this`errorText
      ensures Valid()
      ensures hlsSupported ==>
        hlsCreated && loadingContentId == contentId && source == Some(PlaylistUrl(Text(contentId)))
        && errorText == old(errorText)
      ensures !hlsSupported ==>
        hlsCreated == old(hlsCreated) && loadingContentId == old(loadingContentId) && source == old(source)
        && errorText == "HLS - NOT SUPPORTED"
    {
      var url := PlaylistUrl(Text(contentId));
      if hlsSupported {
        hlsCreated := true;
        loadingContentId := contentId;
        source := Some(url);
      } else {
        errorText := "HLS - NOT SUPPORTED";
      }
    }

    /** The answer of `checkIfContentFileExists` for the entry a poll asked about. */
    method OnPlaylistChecked(contentId: Option<string>, found: bool, hlsSupported: bool)
      requires Valid()
      modifies this`comingSoon, this`hlsCreated, this`loadingContentId, this`source, this`errorText
      ensures Valid()
      ensures !found ==>
        comingSoon == "Next : " + Text(contentId)
        && loadingContentId == old(loadingContentId) && source == old(source)
        && hlsCreated == old(hlsCreated) && errorText == old(errorText)
      ensures found ==> comingSoon == old(comingSoon)
      ensures found && hlsSupported ==>
        hlsCreated && loadingContentId == contentId && source == Some(PlaylistUrl(Text(contentId)))
        && errorText == old(errorText)
      ensures found && !hlsSupported ==>
        hlsCreated == old(hlsCreated) && loadingContentId == old(loadingContentId) && source == old(source)
        && errorText == "HLS - NOT SUPPORTED"
    {
      if !found {
        comingSoon := "Next : " + Text(contentId);
      } else {
        LoadVideo(contentId, hlsSupported);
      }
    }

    /** A click on the link of an entry: `autoPlay = false; loadVideo(filename)`. */
    method OnLinkClicked(filename: string, hlsSupported: bool)
      requires Valid()
      modifies this`autoPlay, this`hlsCreated, this`loadingContentId, this`source, this`errorText
      ensures Valid() && !autoPlay
      ensures hlsSupported ==>
        hlsCreated && loadingContentId == Some(filename) && source == Some(PlaylistUrl(filename))
        && errorText == old(errorText)
      ensures !hlsSupported ==>
        hlsCreated == old(hlsCreated) && loadingContentId == old(loadingContentId) && source == old(source)
        && errorText == "HLS - NOT SUPPORTED"
    {
      autoPlay := false;
      LoadVideo(Some(filename), hlsSupported);
    }

    /** The `MANIFEST_PARSED` handler: the loading entry becomes the one playing. */
    method OnManifestParsed()
      requires Valid() && hlsCreated
      modifies this`errorText, this`comingSoon, this`playingContentId, this`loadingContentId, this`nowPlaying
      ensures Valid()
      ensures errorText == "" && comingSoon == ""
      ensures playingContentId == old(loadingContentId) && loadingContentId == None
      ensures nowPlaying == "Now Playing : " + Text(old(loadingContentId))
    {
      errorText := "";
      comingSoon := "";
      playingContentId := loadingContentId;
      loadingContentId := None;
      nowPlaying := "Now Playing : " + Text(playingContentId);
    }

    /** The `ERROR` handler of the HLS player: only the error slot changes. */
    method OnHlsError(errorType: string, details: string, reason: Option<string>)
      requires Valid() && hlsCreated
      modifies this`errorText
      ensures Valid()
      ensures errorText == HlsErrorText(errorType, details, reason)
    {
      var suffix := if reason.Some? && reason.value != "" then ", reason = " + reason.value else "";
      errorText := "ERROR: type = " + errorType + ", details = " + details + suffix;
    }
  }

  /**
   * A first poll finds a non-empty index whose newest entry is published: the
   * player ends up playing that entry and shows it.
   */
  method FirstPollPlaysNewest(entries: seq<string>) returns (playing: Option<string>, shown: string, html: string)
    requires |entries| > 0
    ensures playing == Some(entries[0])
    ensures shown == "Now Playing : " + entries[0]
    ensures html == ContentLinks(entries)
  {
    var player := new WebPlayer();
    var action := player.PollIteration(Fetched(IndexArray(entries)));
    assert action == CheckPlaylist(Some(entries[0]), PlaylistUrl(entries[0]));
    player.OnPlaylistChecked(action.contentId, true, true);
    player.OnManifestParsed();
    playing, shown, html := player.playingContentId, player.nowPlaying, player.contentsHtml;
  }

  /**
   * After a click on a link, no later poll asks for a playlist, whatever the
   * index holds.
   */
  method ClickDisablesAutomaticPlay(clicked: string, later: seq<IndexFetch>) returns (actions: seq<PollAction>)
    ensures |actions| == |later|
    ensures forall k :: 0 <= k < |actions| ==> actions[k] == NoCheck
  {
    var player := new WebPlayer();
    player.OnLinkClicked(clicked, true);
    player.OnManifestParsed();
    actions := [];
    var i := 0;
    while i < |later|
      invariant i <= |later| && |actions| == i
      invariant player.Valid() && !player.autoPlay
      invariant forall k :: 0 <= k < i ==> actions[k] == NoCheck
    {
      var action := player.PollIteration(later[i]);
      actions := actions + [action];
      i := i + 1;
    }
  }
}
