/**
 * The playback switch of the Android client. A timer polls the content index
 * of the hosting bucket; when the newest entry differs (ignoring case) from
 * the video on screen, the video view is pointed at that entry's playlist,
 * and once the player reports it prepared the entry becomes the one playing.
 *
 * The storage download, the video player and the timer are foreign: their
 * callbacks are the methods of MainActivity, called with what they report.
 */
module AndroidClient {
  import opened Strings

  const ContentIndexKey: string := "content/index.json"

  /** `hostingURL + CONTENT_FOLDER + contentId + CONTENT_FILENAME`. */
  function PlaybackUri(hostingUrl: string, contentId: string): string
  {
    hostingUrl + "/content/" + contentId + "/default.m3u8"
  }

  /** The hosting address and the content id can be read back from a playback URI whose id has no `/`. */
  lemma PlaybackUriInjective(h1: string, id1: string, h2: string, id2: string)
    requires '/' !in id1 && '/' !in id2
    requires PlaybackUri(h1, id1) == PlaybackUri(h2, id2)
    ensures h1 == h2 && id1 == id2
  {
    var p1, p2 := h1 + "/content", h2 + "/content";
    assert PlaybackUri(h1, id1) == p1 + "/" + id1 + "/default.m3u8";
    assert PlaybackUri(h2, id2) == p2 + "/" + id2 + "/default.m3u8";
    assert p1 + "/" + id1 == PlaybackUri(h1, id1)[..|PlaybackUri(h1, id1)| - 13];
    assert p2 + "/" + id2 == PlaybackUri(h2, id2)[..|PlaybackUri(h2, id2)| - 13];
    SplitAtLast(p1, id1, p2, id2, '/');
    assert h1 == p1[..|p1| - 8] && h2 == p2[..|p2| - 8];
  }

  /** `"private/" + userIdentity + "/" + (new Date()).getTime() + ".mp4"`. */
  function UploadKey(userIdentity: string, nowMillis: nat): string
  {
    "private/" + userIdentity + "/" + DecimalString(nowMillis) + ".mp4"
  }

  /** Distinct uploads of one user, or uploads of distinct users, get distinct keys. */
  lemma UploadKeyInjective(u1: string, t1: nat, u2: string, t2: nat)
    requires UploadKey(u1, t1) == UploadKey(u2, t2)
    ensures u1 == u2 && t1 == t2
  {
    var k1, k2 := UploadKey(u1, t1), UploadKey(u2, t2);
    var d1, d2 := DecimalString(t1), DecimalString(t2);
    var p1, p2 := "private/" + u1, "private/" + u2;
    assert k1 == p1 + "/" + (d1 + ".mp4") && k2 == p2 + "/" + (d2 + ".mp4");
    assert '/' !in d1 + ".mp4" by {
      assert forall k :: 0 <= k < |d1| ==> IsDigit(d1[k]);
    }
    assert '/' !in d2 + ".mp4" by {
      assert forall k :: 0 <= k < |d2| ==> IsDigit(d2[k]);
    }
    SplitAtLast(p1, d1 + ".mp4", p2, d2 + ".mp4", '/');
    assert d1 == (d1 + ".mp4")[..|d1|] && d2 == (d2 + ".mp4")[..|d2|];
    assert u1 == p1[8..] && u2 == p2[8..];
    DecimalInjective(t1, t2);
  }

  // ---------------------------------------------------------------------------
  // String.equalsIgnoreCase, on the ASCII letters
  // ---------------------------------------------------------------------------

  function AsciiUpper(c: char): char
  {
    if 'a' <= c <= 'z' then (c as int - 32) as char else c
  }

  function AsciiLower(c: char): char
  {
    if 'A' <= c <= 'Z' then (c as int + 32) as char else c
  }

  /** Java's per-character rule: equal, or equal in upper case, or equal in lower case. */
  predicate SameIgnoringCase(c: char, d: char)
  {
    c == d || AsciiUpper(c) == AsciiUpper(d) || AsciiLower(c) == AsciiLower(d)
  }

  /** `a.equalsIgnoreCase(b)`: same length, and every pair of characters the same ignoring case. */
  predicate EqualsIgnoreCase(a: string, b: string)
  {
    |a| == |b| && (a == [] || (SameIgnoringCase(a[0], b[0]) && EqualsIgnoreCase(a[1..], b[1..])))
  }

  function LowerCase(s: string): (r: string)
    ensures |r| == |s| && forall k :: 0 <= k < |s| ==> r[k] == AsciiLower(s[k])
  {
    if s == [] then [] else [AsciiLower(s[0])] + LowerCase(s[1..])
  }

  /** Comparing ignoring case is comparing the lower-case forms. */
  lemma {:induction false} EqualsIgnoreCaseIffSameLowerCase(a: string, b: string)
    ensures EqualsIgnoreCase(a, b) <==> LowerCase(a) == LowerCase(b)
  {
    if |a| == |b| && a != [] {
      EqualsIgnoreCaseIffSameLowerCase(a[1..], b[1..]);
      assert SameIgnoringCase(a[0], b[0]) <==> AsciiLower(a[0]) == AsciiLower(b[0]);
      assert LowerCase(a) == [AsciiLower(a[0])] + LowerCase(a[1..]);
      assert LowerCase(b) == [AsciiLower(b[0])] + LowerCase(b[1..]);
      if LowerCase(a) == LowerCase(b) {
        assert LowerCase(a)[1..] == LowerCase(a[1..]);
        assert LowerCase(b)[1..] == LowerCase(b[1..]);
      }
    } else if |a| != |b| {
      assert |LowerCase(a)| != |LowerCase(b)|;
    }
  }

  /** The message of the exception raised for an empty index. */
  const NoVideosMessage: string := "No videos available."

  /** The text the download error handler looks for. */
  const MissingKeyText: string := "key does not exist"

  /** An empty index is reported with a message the error handler does not act on. */
  lemma NoVideosMessageIsIgnored()
    ensures !Contains(NoVideosMessage, MissingKeyText)
  {
    forall k: nat ensures !OccursAt(NoVideosMessage, MissingKeyText, k) {
      if k + |MissingKeyText| <= |NoVideosMessage| {
        assert k <= 2;
        assert NoVideosMessage[k] != 'k';
        assert NoVideosMessage[k..k + |MissingKeyText|][0] == NoVideosMessage[k];
      }
    }
  }

  // ---------------------------------------------------------------------------
  // The activity
  // ---------------------------------------------------------------------------

  /** What `IOUtils.toString` and `JSONTokener.nextValue` make of the downloaded file. */
  datatype IndexFile = IndexArray(ids: seq<string>) | Unreadable(message: string)

  /** What the download observer reports. */
  datatype DownloadEvent =
    | InProgress                      // any state other than COMPLETED
    | Completed(file: IndexFile)      // state COMPLETED, the file then read and parsed
    | DownloadFailed(message: string) // the observer's onError

  class MainActivity {
    var userIdentity: string
    var loadingContentId: string
    var playingContentId: string
    /** The text of `textView_playing`. */
    var playingLabel: string
    /** The text of `textView_userId`. */
    var identityLabel: string
    /** The URI last handed to the video view, if any. */
    var videoUri: Option<string>
    var videoVisible: bool
    var videoStarted: bool
    /** `timerHandler != null`. */
    var timerScheduled: bool
    /** The number of polling runnables posted and not yet removed. */
    var pendingPolls: nat

    /** At most one polling runnable is ever scheduled, and only while a handler exists. */
    predicate Valid()
      reads this`timerScheduled, this`pendingPolls
    {
      pendingPolls == if timerScheduled then 1 else 0
    }

    constructor ()
      ensures Valid() && !timerScheduled
      ensures userIdentity == "" && loadingContentId == "" && playingContentId == ""
      ensures playingLabel == "" && identityLabel == ""
      ensures videoUri == None && !videoVisible && !videoStarted
    {
      userIdentity := "";
      loadingContentId := "";
      playingContentId := "";
      playingLabel := "";
      identityLabel := "";
      videoUri := None;
      videoVisible := false;
      videoStarted := false;
      timerScheduled := false;
      pendingPolls := 0;
    }

    /** `setupVideoView(hostingURL, contentId)`: reset the view and load the new entry's playlist. */
    method SetupVideoView(hostingUrl: string, contentId: string)
      modifies this`loadingContentId, this`videoUri, this`videoVisible, this`videoStarted
      ensures loadingContentId == contentId
      ensures videoUri == Some(PlaybackUri(hostingUrl, contentId))
      ensures !videoVisible && !videoStarted
    {
      videoStarted := false;
      videoVisible := false;
      loadingContentId := contentId;
      videoUri := Some(PlaybackUri(hostingUrl, contentId));
    }

    /** `onPrepared()`: the loading entry becomes the one playing. */
    method OnPrepared()
      requires videoUri.Some?
      modifies this`playingContentId, this`playingLabel, this`videoVisible, this`videoStarted
      ensures playingContentId == loadingContentId
      ensures playingLabel == "NOW PLAYING\n" + loadingContentId + "\n"
      ensures videoVisible && videoStarted
    {
      playingContentId := loadingContentId;
      playingLabel := "NOW PLAYING\n" + playingContentId + "\n";
      videoVisible := true;
      videoStarted := true;
    }

    /** `onError(Exception)` of the player: announce the entry as coming soon; the error is not consumed. */
    method OnPlayerError() returns (handled: bool)
      modifies this`playingLabel
      ensures !handled
      ensures playingLabel == "COMING SOON\n" + loadingContentId + "\n"
    {
      playingLabel := "COMING SOON\n" + loadingContentId + "\n";
      handled := false;
    }

    /** `onIdentityId(identityId)`. */
    method OnIdentityId(identityId: string)
      modifies this`userIdentity, this`identityLabel
      ensures userIdentity == identityId
      ensures identityLabel == "Amazon Cognito Identity\n" + identityId
    {
      userIdentity := identityId;
      identityLabel := "Amazon Cognito Identity\n" + userIdentity;
    }

    /** `stopTimer()`: remove the pending runnable, if a handler exists, and drop the handler. */
    method StopTimer()
      requires Valid()
      modifies this`timerScheduled, this`pendingPolls
      ensures Valid() && !timerScheduled && pendingPolls == 0
    {
      if timerScheduled {
        pendingPolls := pendingPolls - 1;
        timerScheduled := false;
      }
    }

    /** `startTimer()`: cancel any running timer, then post one polling runnable on a new handler. */
    method StartTimer()
      requires Valid()
      modifies this`timerScheduled, this`pendingPolls
      ensures Valid() && timerScheduled && pendingPolls == 1
    {
      StopTimer();
      timerScheduled := true;
      pendingPolls := pendingPolls + 1;
    }

    /** `onResume()`. */
    method OnResume()
      requires Valid()
      modifies this`timerScheduled, this`pendingPolls
      ensures Valid() && timerScheduled && pendingPolls == 1
    {
      StartTimer();
    }

    /** `onPause()`. */
    method OnPause()
      requires Valid()
      modifies this`timerScheduled, this`pendingPolls
      ensures Valid() && !timerScheduled && pendingPolls == 0
    {
      StopTimer();
    }

    /**
     * The polling runnable runs: reloadContentIndex starts a download of the
     * content index (whose outcome arrives through OnDownloadEvent), and the
     * runnable posts itself again. configReadable says whether reading the
     * `ContentManager` configuration and creating the temp file succeed; when
     * they throw, the exception is caught and logged and no download starts,
     * but the next tick is still posted.
     */
    method TimerFired(configReadable: bool) returns (downloadKey: Option<string>)
      requires Valid() && timerScheduled
      modifies this`pendingPolls
      ensures Valid() && pendingPolls == old(pendingPolls)
      ensures configReadable ==> downloadKey == Some(ContentIndexKey)
      ensures !configReadable ==> downloadKey.None?
    {
      pendingPolls := pendingPolls - 1;
      if configReadable {
        downloadKey := Some(ContentIndexKey);
      } else {
        downloadKey := None;
      }
      pendingPolls := pendingPolls + 1;
    }

    /** The download observer's `onError(id, ex)`: only a missing index is reported on screen. */
    method ReportDownloadError(message: string)
      modifies this`playingLabel
      ensures Contains(message, MissingKeyText) ==> playingLabel == "CONTENT INDEX IS NOT AVAILABLE\n"
      ensures !Contains(message, MissingKeyText) ==> playingLabel == old(playingLabel)
    {
      if Contains(message, MissingKeyText) {
        playingLabel := "CONTENT INDEX IS NOT AVAILABLE\n";
      }
    }

    /**
     * The download observer's callbacks, with the hosting address read from
     * the configuration: a completed, readable, non-empty index switches to
     * its first entry unless that entry is already playing, ignoring case.
     */
    method OnDownloadEvent(hostingUrl: string, event: DownloadEvent)
      modifies this`playingLabel, this`loadingContentId, this`videoUri, this`videoVisible, this`videoStarted
      ensures playingContentId == old(playingContentId)
      ensures
        var switches := event.Completed? && event.file.IndexArray? && |event.file.ids| > 0
                        && !EqualsIgnoreCase(event.file.ids[0], old(playingContentId));
        if switches then
          && loadingContentId == event.file.ids[0]
          && videoUri == Some(PlaybackUri(hostingUrl, event.file.ids[0]))
          && !videoVisible && !videoStarted && playingLabel == old(playingLabel)
        else
          && loadingContentId == old(loadingContentId) && videoUri == old(videoUri)
          && videoVisible == old(videoVisible) && videoStarted == old(videoStarted)
      ensures event.DownloadFailed? ==>
        playingLabel == if Contains(event.message, MissingKeyText) then "CONTENT INDEX IS NOT AVAILABLE\n" else old(playingLabel)
      ensures event.Completed? && event.file.Unreadable? ==>
        playingLabel == if Contains(event.file.message, MissingKeyText) then "CONTENT INDEX IS NOT AVAILABLE\n" else old(playingLabel)
      ensures event.InProgress? || (event.Completed? && event.file.IndexArray?) ==> playingLabel == old(playingLabel)
    {
      match event
      case InProgress =>
      case DownloadFailed(message) =>
        ReportDownloadError(message);
      case Completed(Unreadable(message)) =>
        ReportDownloadError(message);
      case Completed(IndexArray(ids)) =>
        if |ids| <= 0 {
          NoVideosMessageIsIgnored();
          ReportDownloadError(NoVideosMessage);
          return;
        }
        var contentId := ids[0];
        if !EqualsIgnoreCase(contentId, playingContentId) {
          SetupVideoView(hostingUrl, contentId);
        }
    }

    /** The object key `uploadVideoFile` uploads a recording under, at time nowMillis. */
    method UploadObjectKey(nowMillis: nat) returns (objectKey: string)
      ensures |objectKey| > |userIdentity| + 13
      ensures objectKey[..8] == "private/" && objectKey[8..8 + |userIdentity|] == userIdentity
      ensures objectKey[8 + |userIdentity|] == '/' && objectKey[|objectKey| - 4..] == ".mp4"
      ensures var stamp := objectKey[9 + |userIdentity|..|objectKey| - 4];
        AllDigits(stamp) && ParseDecimal(stamp) == nowMillis
    {
      objectKey := UploadKey(userIdentity, nowMillis);
      var d := DecimalString(nowMillis);
      assert objectKey == "private/" + userIdentity + "/" + d + ".mp4";
      assert objectKey[9 + |userIdentity|..|objectKey| - 4] == d;
      DecimalRoundTrip(nowMillis);
    }
  }

  /**
   * A session: resume, poll once and find `latest`, the player prepares it.
   * The next poll finds the same entry in another case, the one after finds
   * the index unchanged, and a last tick cannot read the configuration; none
   * of them reloads the player or changes the label.
   */
  method PlaybackSession(hostingUrl: string, latest: string, sameIgnoringCase: string) returns (shown: string, uri: Option<string>)
    requires |latest| > 0
    requires EqualsIgnoreCase(latest, sameIgnoringCase)
    ensures shown == "NOW PLAYING\n" + latest + "\n"
    ensures uri == Some(PlaybackUri(hostingUrl, latest))
  {
    EqualsIgnoreCaseIffSameLowerCase(latest, sameIgnoringCase);
    EqualsIgnoreCaseIffSameLowerCase(sameIgnoringCase, latest);
    var activity := new MainActivity();
    activity.OnResume();
    var key := activity.TimerFired(true);
    activity.OnDownloadEvent(hostingUrl, Completed(IndexArray([latest])));
    activity.OnPrepared();
    key := activity.TimerFired(true);
    activity.OnDownloadEvent(hostingUrl, Completed(IndexArray([sameIgnoringCase, latest])));
    EqualsIgnoreCaseIffSameLowerCase(latest, latest);
    key := activity.TimerFired(true);
    activity.OnDownloadEvent(hostingUrl, Completed(IndexArray([latest])));
    key := activity.TimerFired(false);
    shown, uri := activity.playingLabel, activity.videoUri;
  }
}
