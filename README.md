# Simple video transcoding: a verified model of its playback and indexing logic

The system lets a mobile user record a video and upload it to a "userfiles"
storage bucket. A cloud function then transcodes it into an HLS playlist
under `content/<videoId>/` of the matching "hosting" bucket. The same
function rewrites the content index `content/index.json`, which lists every
content folder in descending string order. An Android client and a web client
poll that index and switch playback to its first entry. That entry is the
newest video only when every other folder is an earlier video id whose
timestamp has the same number of digits (`ContentIndex.NewestVideoFirst`); a
folder-marker key sorts above every video id (`ContentIndex.FolderMarkerHeadsIndex`).

This project models those three pieces of logic in Dafny and proves what they
promise:

- `strings.dfy` (module `Strings`): helpers shared by all three.
  - Decimal rendering of numbers, and the default string order of a JavaScript `sort()`.
  - Substring search, first-match replacement, and splitting at a separator.
- `content_patterns.dfy` (module `ContentPatterns`): the two regular expressions of the cloud function.
  - `/content\/.+\//` filters the keys; `/content\/(.+)\/.+/` rewrites each into its folder name.
  - They are modelled by a hand-written matcher with the engine's leftmost-then-greedy choice.
  - JavaScript's `.` does not match line terminators (`\n`, `\r`, U+2028, U+2029), and the matcher keeps that rule.
- `content_index.dfy` (module `ContentIndex`): the cloud function's own logic.
  - The video id, the output prefix and the hosting bucket name.
  - Decoding of the object key from the storage event.
  - The paginated listing loop.
  - The rebuild of the content index: filter, rewrite, de-duplicate, add the new id, sort, reverse.
- `android_activity.dfy` (module `AndroidClient`): the Android client.
  - Class `MainActivity` holds the loading and playing ids, the two labels, the video view's URI and visibility, and the polling timer.
  - Also here: the playback URI and the upload object key.
- `web_player.dfy` (module `WebClient`): the web client.
  - Class `WebPlayer` holds the fetched contents, the loading and playing ids (`undefined` is `None`), the `autoPlay` flag, the HLS player's source and the four DOM slots.

The models never perform foreign calls. Where a call's answer drives the
logic, that answer is a parameter:
- the storage listing: the `ListReply` sequence of `ContentIndex.ListFilesFromS3`;
- the storage and browser fetches of the index: the `IndexFetch` of `WebClient.WebPlayer.LoadContentsIndex`;
- the playlist check: the `found` flag of `WebClient.WebPlayer.OnPlaylistChecked`;
- the Android download of the index: the event of `AndroidClient.MainActivity.OnDownloadEvent`;
- the Android configuration read: the `configReadable` flag of `AndroidClient.MainActivity.TimerFired`;
- the HLS player and the video view: their callbacks are methods;
- the clock: timestamps are parameters.

The metadata read, the transcoder job, the index upload and the Android video
upload are not modelled (see "## Left out").

Where the code and the documented behaviour of the system differ, the model
follows the code:

- The Android player error handler returns `false`, so the error is not consumed (`android/VideoDemo/app/src/main/java/com/amazonaws/videodemo/videodemo/MainActivity.java:326`).
- On Android, an empty index changes no label. It is routed to the download error handler with the message `"No videos available."`. That message does not contain `"key does not exist"`, so the handler does nothing (`android/VideoDemo/app/src/main/java/com/amazonaws/videodemo/videodemo/MainActivity.java:247-250`, `276`).

## Model

| member | source | states |
|---|---|---|
| Strings.DecimalString | index.js:57 | `String(n)` of a non-negative integer is all digits and non-empty. It has one digit exactly when n < 10, and no leading zero unless n is 0. |
| Strings.DecimalRoundTrip | index.js:57 | Reading the decimal rendering back gives the number. |
| Strings.DecimalInjective | index.js:57 | Two numbers have the same decimal rendering if and only if they are equal. |
| Strings.DecimalOrder | index.js:57 | Of two timestamps with the same number of digits, the earlier sorts first in string order. |
| Strings.LessIrreflexive | index.js:161 | The order of `sort()` puts no string before itself. |
| Strings.LessTransitive | index.js:161 | The order of `sort()` is transitive. |
| Strings.LessTotal | index.js:161 | Any two distinct strings are ordered one way or the other. |
| Strings.LessAsymmetric | index.js:161 | Two strings are never each before the other. |
| Strings.FindFirst | index.js:116 | Returns the leftmost occurrence of a literal pattern, or none when the pattern occurs nowhere. |
| Strings.Contains | android/VideoDemo/app/src/main/java/com/amazonaws/videodemo/videodemo/MainActivity.java:276 | `includes` / `contains` holds if and only if the pattern occurs at some position. |
| Strings.ReplaceFirst | index.js:116 | With no occurrence the string is unchanged. Otherwise only the leftmost occurrence is replaced. |
| Strings.SplitAtFirst | index.js:59 | A separator absent from both left parts splits a string in one way only. |
| Strings.SplitAtLast | android/VideoDemo/app/src/main/java/com/amazonaws/videodemo/videodemo/MainActivity.java:418 | A separator absent from both right parts splits a string in one way only. |
| ContentPatterns.LineEnd | index.js:151 | Gives how far `.+` can reach: the first line terminator at or after a position, or the end of the string. |
| ContentPatterns.LastSlash | index.js:153 | Gives the last `/` in a range, or states that there is none. |
| ContentPatterns.FilterFrom | index.js:151 | Holds if and only if the filter matches with some start at or after the given position. |
| ContentPatterns.InContentFolder | index.js:150-152 | `filename.match(/content\/.+\//)` holds if and only if there is a `content/`, then at least one non-terminator character, then a `/`. |
| ContentPatterns.RewriteFrom | index.js:26 | Returns the leftmost start at which the rewrite pattern matches, and at that start the longest capture. With no match it returns none. |
| ContentPatterns.FolderName | index.js:153 | With no match the key is unchanged. Otherwise the result is the text before the match, then the capture, then whatever follows the end of the line. |
| ContentPatterns.RewriteImpliesFilter | index.js:150-153 | Every key the rewrite changes also passes the filter. |
| ContentPatterns.FolderNameOfOutput | index.js:150-153 | For a non-empty `v` without line terminators, a key `content/<v>/<file>` passes the filter and is indexed as exactly `v`. Here `file` is a non-empty name without `/` or line terminators, and `v` may contain slashes. |
| ContentPatterns.NestedFolderKey | index.js:150-153 | `content/a/b/c.ts` is indexed as `a/b`. |
| ContentPatterns.IndexFileAndFolderMarker | index.js:150-153 | `content/index.json` contributes nothing. The folder marker `content/a/` passes the filter, fails the rewrite, and is indexed whole. |
| ContentIndex.SecondField | index.js:59 | Without a colon, `split(':')[1]` renders as `"undefined"`. |
| ContentIndex.SecondFieldOf | index.js:59 | `split(':')[1]` is the text between the first colon and the next colon, or up to the end. |
| ContentIndex.VideoIdInjective | index.js:56-59 | A video id determines its timestamp and its principal field. |
| ContentIndex.OutputIndexedAsVideo | index.js:56-60 | When the principal id has no line terminator, every transcoder output `outputPrefix + name` is indexed as the video id. Here `name` is non-empty, without `/` or line terminators. |
| ContentIndex.HostingBucket | index.js:116 | Only the first `-userfiles-` becomes `-hosting-`. Without one the name is unchanged. |
| ContentIndex.HostingBucketUnchangedIffAbsent | index.js:116 | The hosting name equals the bucket name if and only if `-userfiles-` does not occur in it. |
| ContentIndex.PlusToSpace | index.js:35 | Every `+` becomes a space and every other character stays put. |
| ContentIndex.PlusToSpaceAppend | index.js:35 | Replacing `+` distributes over concatenation. |
| ContentIndex.HexChar | index.js:35 | Gives a hex digit whose value is the given nibble. |
| ContentIndex.DecodeEncodedChar | index.js:35 | Decoding undoes the storage event's spelling of one ASCII character. |
| ContentIndex.EventKeyRoundTrip | index.js:35 | The object key is recovered from its form-urlencoded event spelling, for any ASCII key. |
| ContentIndex.PlusAndEscapedPlus | index.js:35 | `%2B` survives as a literal `+`, while `+` decodes to a space. |
| ContentIndex.PagesBeforeLast | index.js:193-199 | Counts the pages before the first page that ends the listing: an error, a page that is not truncated, or an empty truncated page. |
| ContentIndex.KeysOfPages | index.js:189-191 | Every key of every page received is in the accumulated list. |
| ContentIndex.KeysOfFromPages | index.js:189-191 | Every key in the accumulated list comes from a page received. |
| ContentIndex.ListFilesFromS3 | index.js:175-201 | The outcome agrees with the replies. An error goes to the callback. A non-truncated page delivers all keys, page after page. An empty truncated page throws. The first request has no marker, and each later request carries the last key of the previous page as its marker, unless that key is empty. |
| ContentIndex.InsertDescending | index.js:161 | Inserting into a strictly descending list keeps it strictly descending and adds exactly one element. |
| ContentIndex.SortedKeysDescending | index.js:161 | `Object.keys(m).sort().reverse()` lists exactly the keys, each once, in strictly descending order. |
| ContentIndex.NewContentIndex | index.js:147-161 | The new index holds exactly the filtered and rewritten keys of the listing plus the video id, strictly descending. |
| ContentIndex.TailElements | index.js:161 | Dropping the head of a strictly descending list removes exactly that entry. |
| ContentIndex.DescendingUnique | index.js:161 | A strictly descending list is determined by its set of entries. |
| ContentIndex.HeadIsGreatest | index.js:161 | Every other entry of a strictly descending list sorts before its head. |
| ContentIndex.GreatestIsHead | index.js:161 | An entry that all others sort before is the head. |
| ContentIndex.SameKeysSameFolders | index.js:149-156 | Listings with the same set of keys contribute the same folders. |
| ContentIndex.IndexIndependentOfListing | index.js:149-161 | The new index does not depend on the order of the listing or on repeated keys. |
| ContentIndex.IndexHeadIsGreatest | index.js:147-161 | The index is not empty and has no duplicates. Its first entry sorts after every other entry. |
| ContentIndex.DistinctCard | index.js:161 | A strictly descending list has as many distinct entries as entries. |
| ContentIndex.OlderVideoIsLess | index.js:56-59 | A video id with an earlier timestamp of equal length sorts before the new one. |
| ContentIndex.NewestVideoFirst | index.js:159-161 | When every other folder is an earlier video id, the new video heads the index, and that is the entry both clients poll for. |
| ContentIndex.FolderMarkerHeadsIndex | index.js:150-161 | A listing holding the folder marker `content/a/` gives the index `["content/a/", videoId]`: the marker, not the new video, opens it. |
| ContentIndex.AppendJobToContentIndex | index.js:134-172 | If the listing succeeds, the function puts `content/index.json` into the hosting bucket with the new index. If the listing fails, the message is `Unable to list files in bucket <b>. <err>`. Otherwise nothing is reported. |
| AndroidClient.PlaybackUriInjective | android/VideoDemo/app/src/main/java/com/amazonaws/videodemo/videodemo/MainActivity.java:92-93 | The playback URI `h + "/content/" + id + "/default.m3u8"` determines the host and an id without `/`. |
| AndroidClient.UploadKeyInjective | android/VideoDemo/app/src/main/java/com/amazonaws/videodemo/videodemo/MainActivity.java:418 | The upload key `"private/" + identity + "/" + millis + ".mp4"` determines the identity and the timestamp. |
| AndroidClient.LowerCase | android/VideoDemo/app/src/main/java/com/amazonaws/videodemo/videodemo/MainActivity.java:256 | Lower-cases ASCII letters position by position and keeps the length. |
| AndroidClient.EqualsIgnoreCaseIffSameLowerCase | android/VideoDemo/app/src/main/java/com/amazonaws/videodemo/videodemo/MainActivity.java:256 | `equalsIgnoreCase`, with Java's rule applied character by character, holds if and only if the lower-case forms are equal. |
| AndroidClient.NoVideosMessageIsIgnored | android/VideoDemo/app/src/main/java/com/amazonaws/videodemo/videodemo/MainActivity.java:247-250 | The empty-index message does not contain `"key does not exist"`. |
| AndroidClient.MainActivity.constructor | android/VideoDemo/app/src/main/java/com/amazonaws/videodemo/videodemo/MainActivity.java:72-74 | The identity and both ids start empty, and no timer runs. |
| AndroidClient.MainActivity.SetupVideoView | android/VideoDemo/app/src/main/java/com/amazonaws/videodemo/videodemo/MainActivity.java:80-99 | Sets `loadingContentId := id` and resets and hides the view. It hands the view the playback URI and leaves `playingContentId` alone. |
| AndroidClient.MainActivity.OnPrepared | android/VideoDemo/app/src/main/java/com/amazonaws/videodemo/videodemo/MainActivity.java:105-115 | Sets `playingContentId := loadingContentId` and the label `"NOW PLAYING\n" + id + "\n"`. It shows and starts the video. |
| AndroidClient.MainActivity.OnPlayerError | android/VideoDemo/app/src/main/java/com/amazonaws/videodemo/videodemo/MainActivity.java:320-327 | Sets the label `"COMING SOON\n" + loadingContentId + "\n"`, keeps both ids, and returns `false`. |
| AndroidClient.MainActivity.OnIdentityId | android/VideoDemo/app/src/main/java/com/amazonaws/videodemo/videodemo/MainActivity.java:295-301 | Stores the identity and shows `"Amazon Cognito Identity\n" + id`. |
| AndroidClient.MainActivity.StopTimer | android/VideoDemo/app/src/main/java/com/amazonaws/videodemo/videodemo/MainActivity.java:199-204 | Leaves no timer and no pending poll, whether or not one was running. |
| AndroidClient.MainActivity.StartTimer | android/VideoDemo/app/src/main/java/com/amazonaws/videodemo/videodemo/MainActivity.java:183-197 | Cancels any timer first, so exactly one polling runnable is scheduled. |
| AndroidClient.MainActivity.OnResume | android/VideoDemo/app/src/main/java/com/amazonaws/videodemo/videodemo/MainActivity.java:170-174 | Starts the timer: exactly one poll is pending. |
| AndroidClient.MainActivity.OnPause | android/VideoDemo/app/src/main/java/com/amazonaws/videodemo/videodemo/MainActivity.java:177-181 | Stops the timer: no poll is pending. |
| AndroidClient.MainActivity.TimerFired | android/VideoDemo/app/src/main/java/com/amazonaws/videodemo/videodemo/MainActivity.java:187-219 | A tick requests the content index when the configuration read and the temp file succeed. When they throw (caught and logged at android/VideoDemo/app/src/main/java/com/amazonaws/videodemo/videodemo/MainActivity.java:284-286), it requests nothing. Either way it posts itself again, keeping exactly one poll pending. |
| AndroidClient.MainActivity.ReportDownloadError | android/VideoDemo/app/src/main/java/com/amazonaws/videodemo/videodemo/MainActivity.java:273-282 | A message containing `"key does not exist"` sets the label `"CONTENT INDEX IS NOT AVAILABLE\n"`. Any other message changes nothing. |
| AndroidClient.MainActivity.OnDownloadEvent | android/VideoDemo/app/src/main/java/com/amazonaws/videodemo/videodemo/MainActivity.java:236-282 | A readable, non-empty index switches to its first entry if and only if that entry differs from the playing id ignoring case. An equal entry leaves the ids, the view and the label untouched. An empty index changes nothing. An unreadable file or a failed download changes only the label, and only for a missing key. |
| AndroidClient.MainActivity.UploadObjectKey | android/VideoDemo/app/src/main/java/com/amazonaws/videodemo/videodemo/MainActivity.java:418 | The upload key opens with `private/`, then the identity stored by `OnIdentityId`, then `/`. It ends with `.mp4`, and the digits between read back as the timestamp. |
| AndroidClient.PlaybackSession | android/VideoDemo/app/src/main/java/com/amazonaws/videodemo/videodemo/MainActivity.java:187-259 | After one poll and a prepared player, the label shows the newest entry. Three later ticks leave the label and the video URI as they were: one finds the same entry in another case, one finds the index unchanged, and one cannot read the configuration. |
| WebClient.RebuiltIndexHasHead | website/app/scripts/main.js:46 | `contents[0]` of an index the backend rebuilt is never undefined, and it is the greatest entry of that index. |
| WebClient.PlaylistOfVideo | website/app/scripts/main.js:122 | The web playlist URL is the transcoder's output prefix plus `default.m3u8`. The Android URI is the hosting address, a `/`, and the same path. |
| WebClient.PlaylistIndexedAsVideo | website/app/scripts/main.js:227-230 | The playlist a poll checks for a new video is indexed under that video's id. |
| WebClient.ContentLinksAppend | website/app/scripts/main.js:144-147 | The rendered index of a concatenation is the concatenation of the renderings. |
| WebClient.ContentLinksFirst | website/app/scripts/main.js:144-147 | The rendering opens with the first entry's link, and the rest follow in order. |
| WebClient.HlsErrorReasonRecoverable | website/app/scripts/main.js:102-106 | For a given type and details, equal error texts with truthy reasons have equal reasons: the reason is shown whole at the end. |
| WebClient.HlsErrorTextFields | website/app/scripts/main.js:99-106 | The error text shows `data.type` and `data.details` whole, at fixed places after their labels. It is longer exactly when `data.reason` is truthy, and the extra part is `", reason = "` and the reason. |
| WebClient.WebPlayer.constructor | website/app/scripts/main.js:21-25 | Starts with empty contents, both ids undefined, and automatic play on. |
| WebClient.WebPlayer.UpdateContentsIndex | website/app/scripts/main.js:139-150 | The contents slot is the links of all entries, in index order. |
| WebClient.WebPlayer.LoadContentsIndex | website/app/scripts/main.js:152-172 | A parsed index replaces the contents wholesale, is rendered, and clears the error slot. Otherwise the contents and the slot are kept and the error is passed on. |
| WebClient.WebPlayer.PollIteration | website/app/scripts/main.js:32-65 | A missing index shows `CONTENT INDEX IS NOT AVAILABLE`, and other errors are shown as they are. A playlist check is requested if and only if the index loaded, `autoPlay` holds, and the playing id differs strictly from `contents[0]`. The check is for that entry's playlist. |
| WebClient.WebPlayer.OnPlaylistChecked | website/app/scripts/main.js:53-61 | An unpublished playlist shows `"Next : " + id` and changes neither id. A published one is loaded. |
| WebClient.WebPlayer.LoadVideo | website/app/scripts/main.js:120-137 | With HLS, `loadingContentId := id` and the playlist is handed to a new player. Without HLS, both ids and the player are kept and `HLS - NOT SUPPORTED` is shown. |
| WebClient.WebPlayer.OnLinkClicked | website/app/scripts/main.js:146 | A click switches automatic play off and loads the entry. |
| WebClient.WebPlayer.OnManifestParsed | website/app/scripts/main.js:80-92 | Sets `playingContentId := loadingContentId` and `loadingContentId := undefined`. It clears the error and coming-soon slots and shows `"Now Playing : " + id`. |
| WebClient.WebPlayer.OnHlsError | website/app/scripts/main.js:98-110 | Only the error slot changes, and it shows the error text. |
| WebClient.FirstPollPlaysNewest | website/app/scripts/main.js:32-65 | A first poll of a non-empty index with a published playlist ends with its first entry playing, shown and rendered. |
| WebClient.ClickDisablesAutomaticPlay | website/app/scripts/main.js:52 | After a click on a link, no later poll requests a playlist, whatever the index holds. |

## Left out

- Storage, transcoder and browser calls: `listObjects`, `getObject`, the Android transfer download and `XMLHttpRequest`. These are foreign; their answers are method parameters, as listed above.
- `headObject`, `createJob`, `putObject` and the Android video upload: not modelled. Their answers only feed the left-out `context.succeed` / `context.fail` reports, the "Error fetching object metadata" path and the upload dialogs. `ContentIndex.AppendJobToContentIndex` returns the `putObject` request. `AndroidClient.MainActivity.UploadObjectKey` builds the upload's key.
- The handler's orchestration and its `context.succeed` / `context.fail` reports. Also the `userIp` / `userPrincipal` metadata and the transcode request literal (preset ids, playlist definition). These are constant data or foreign calls.
- JSON: `JSON.stringify`, `JSON.parse` and `JSONTokener` are not modelled. An index is a sequence of strings, and a parse failure is an error value.
  - Not covered: a non-array JSON value, which crashes the Android client with a cast failure and makes the web client replace `contents` before the error.
  - Not covered: non-string entries.
- Object-as-set keys: `fileMap` is modelled as a set of strings. The special behaviour of a `__proto__` key is not modelled.
- ContentIndex.SortedKeysDescending: Dafny compares strings by code point, while JavaScript's `sort()` compares UTF-16 code units. The two orders agree except between characters above U+FFFF and those in U+E000–U+FFFF.
- ContentIndex.DecodeUriComponent: `%XY` escapes of bytes 0x80 and above are decoded by JavaScript as UTF-8. They yield the outcome `NonAsciiEscape`, which stands for that unmodelled decoding. A malformed escape yields `MalformedEscape`, where JavaScript throws `URIError`.
- Strings.DecimalString: `String(n)` switches to exponent notation from 1e21 on. No millisecond clock reaches that.
- Time: the 30-second and 10-second poll periods and the wall clock are not modelled. Timestamps are parameters, and the timer is modelled by the number of pending polls.
- Concurrency: events are a sequential trace. Races between overlapping polls and player callbacks on the `volatile` fields are not modelled.
- AndroidClient.EqualsIgnoreCase: folds ASCII letters only, not all of Unicode.
- AndroidClient.MainActivity.ReportDownloadError: a `null` exception message raises `NullPointerException` in Java. That case is not modelled; the message is always a string.
- UI glue: the toolbar, menu, permissions, camera intent, cursor handling, dialogs and the `onCompletion` restart of the video. The initial text of the labels and DOM slots comes from layout files that are not part of this model; it is taken to be empty.
- `contentZero` in the web poll (main.js:33) is computed and never used.
- The web client's `LEVEL_SWITCHING` handler only logs.
- AndroidClient.MainActivity.TimerFired: when the configuration has no `ContentManager` object, `optJsonObject` returns `null`, and the `getString` call throws `NullPointerException`. The catch does not cover it, so it escapes the runnable and the next tick is never posted. The model covers only the caught `JSONException` / `IOException` path, as `configReadable == false`. The bucket, region and CloudFront URL read from the configuration are not modelled; the URL is the `hostingUrl` parameter of `OnDownloadEvent`.
- WebClient.WebPlayer.OnLinkClicked: the link runs the `href` script that main.js:146 builds by plain concatenation. The model assumes that script is `autoPlay = false; loadVideo(filename)`, which holds only for entries without `'`, `"`, `\`, `%`, `&` or line terminators. With a `'` the script does not parse: `autoPlay` stays on and nothing loads. With a `"` the attribute ends early. With a `\`, an `&...;` entity or a `%XY` escape, a different id loads, because the attribute, the `javascript:` URL and the string literal are each decoded.
- WebClient.ClickDisablesAutomaticPlay: holds only for a clicked entry without `'`, `"`, `\`, `%`, `&` or line terminators, for the reason given under `WebClient.WebPlayer.OnLinkClicked`. When the click's script fails to parse, automatic play stays on and later polls still request playlists.
- The web video element's play state: `video.play()` when the manifest is parsed (main.js:89) and `video.pause()` before a new load (main.js:125) are not modelled. The model keeps the HLS player and its source, not whether the element is playing.
- ContentIndex.NewestVideoFirst: holds only under its precondition. Folder-marker keys (`content/x/`), folders that are not video ids, and timestamps with fewer digits can sort above the new video, and then both clients poll for that entry instead (shown for a marker by ContentIndex.FolderMarkerHeadsIndex).
