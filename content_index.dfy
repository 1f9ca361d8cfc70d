/**
 * The transcoding function that runs when a video lands in the user-files
 * bucket: it derives the object key and a fresh video id from the storage
 * event, names the output folder and the hosting bucket, and rewrites the
 * content index `content/index.json` of the hosting bucket with every content
 * folder listed there plus the new video id, newest (greatest) first.
 *
 * The storage and transcoder calls themselves are foreign; their answers are
 * parameters here.
 */
module ContentIndex {
  import opened Strings
  import opened ContentPatterns

  const IndexKey: string := "content/index.json"

  // ---------------------------------------------------------------------------
  // Names derived from the storage event
  // ---------------------------------------------------------------------------

  /**
   * `principalId.split(':')[1]`: the text between the first and the second
   * colon, or up to the end. Without a colon the element does not exist and
   * string concatenation renders it as "undefined".
   */
  function SecondField(principalId: string): (r: string)
    ensures ':' !in principalId ==> r == "undefined"
  {
    match FindFirst(principalId, ":")
    case None =>
      assert forall k :: 0 <= k < |principalId| ==> principalId[k] != ':' by {
        forall k | 0 <= k < |principalId| ensures principalId[k] != ':' {
          assert !OccursAt(principalId, ":", k);
          assert principalId[k..k + 1] == [principalId[k]];
        }
      }
      "undefined"
    case Some(i) =>
      assert principalId[i] == principalId[i..i + 1][0] == ':';
      var rest := principalId[i + 1..];
      match FindFirst(rest, ":")
      case None => rest
      case Some(j) => rest[..j]
  }

  lemma SecondFieldOf(first: string, second: string, rest: string)
    requires ':' !in first && ':' !in second
    requires rest == [] || rest[0] == ':'
    ensures SecondField(first + ":" + second + rest) == second
  {
    var p := first + ":" + second + rest;
    FirstColon(first, second + rest);
    assert p == first + ":" + (second + rest);
    if rest == [] {
      assert second + rest == second;
      NoColon(second);
    } else {
      assert second + rest == second + ":" + rest[1..];
      FirstColon(second, rest[1..]);
      assert (second + rest)[..|second|] == second;
    }
  }

  /** The first colon of `first + ":" + tail`, when first has none. */
  lemma FirstColon(first: string, tail: string)
    requires ':' !in first
    ensures FindFirst(first + ":" + tail, ":") == Some(|first|)
    ensures (first + ":" + tail)[|first| + 1..] == tail
  {
    var p := first + ":" + tail;
    assert p[|first|..|first| + 1] == ":";
    assert OccursAt(p, ":", |first|);
    forall k: nat | k < |first| ensures !OccursAt(p, ":", k) {
      assert p[k..k + 1][0] == p[k] == first[k];
    }
    var r := FindFirst(p, ":");
    assert r.Some? && !(r.value < |first|) && !(|first| < r.value);
  }

  lemma NoColon(s: string)
    requires ':' !in s
    ensures FindFirst(s, ":") == None
  {
    forall k: nat ensures !OccursAt(s, ":", k) {
      if k < |s| {
        assert s[k..k + 1][0] == s[k];
      }
    }
  }

  /** `String(new Date().getTime()) + '-' + principalId.split(':')[1]`. */
  function VideoId(nowMillis: nat, principalId: string): string
  {
    DecimalString(nowMillis) + "-" + SecondField(principalId)
  }

  /** The timestamp and the principal's field can be read back from a video id. */
  lemma VideoIdInjective(t1: nat, p1: string, t2: nat, p2: string)
    requires VideoId(t1, p1) == VideoId(t2, p2)
    ensures t1 == t2 && SecondField(p1) == SecondField(p2)
  {
    var d1, d2 := DecimalString(t1), DecimalString(t2);
    assert '-' !in d1 && '-' !in d2 by {
      assert forall k :: 0 <= k < |d1| ==> IsDigit(d1[k]);
      assert forall k :: 0 <= k < |d2| ==> IsDigit(d2[k]);
    }
    SplitAtFirst(d1, SecondField(p1), d2, SecondField(p2), '-');
    DecimalInjective(t1, t2);
  }

  /** `OUTPUT_FOLDER + videoId + '/'`: where the transcoder writes the outputs. */
  function OutputPrefix(videoId: string): string
  {
    ContentFolder + videoId + "/"
  }

  /** Every transcoder output `outputPrefix + name` (a name without `/`) is indexed as the video id. */
  lemma OutputIndexedAsVideo(nowMillis: nat, principalId: string, name: string)
    requires NoLineTerminator(principalId)
    requires name != [] && NoLineTerminator(name) && '/' !in name
    ensures InContentFolder(OutputPrefix(VideoId(nowMillis, principalId)) + name)
    ensures FolderName(OutputPrefix(VideoId(nowMillis, principalId)) + name) == VideoId(nowMillis, principalId)
  {
    var v := VideoId(nowMillis, principalId);
    var d := DecimalString(nowMillis);
    var f := SecondField(principalId);
    assert NoLineTerminator(f) by {
      match FindFirst(principalId, ":")
      case None =>
      case Some(i) =>
        var rest := principalId[i + 1..];
        assert NoLineTerminator(rest);
    }
    assert forall k :: 0 <= k < |d| ==> IsDigit(d[k]);
    assert forall k :: 0 <= k < |v| ==> !IsLineTerminator(v[k]) by {
      forall k | 0 <= k < |v| ensures !IsLineTerminator(v[k]) {
        if k < |d| { assert v[k] == d[k]; }
        else if k > |d| { assert v[k] == f[k - |d| - 1]; }
      }
    }
    assert OutputPrefix(v) + name == ContentFolder + v + "/" + name;
    FolderNameOfOutput(v, name);
  }

  /** `bucket.replace(/-userfiles-/, '-hosting-')`. */
  function HostingBucket(bucket: string): (r: string)
    ensures (forall k: nat :: !OccursAt(bucket, "-userfiles-", k)) ==> r == bucket
    ensures forall i: nat :: Leftmost(bucket, "-userfiles-", i) ==>
              r == bucket[..i] + "-hosting-" + bucket[i + 11..]
  {
    ReplaceFirst(bucket, "-userfiles-", "-hosting-")
  }

  /** The rename leaves the bucket name alone exactly when `-userfiles-` is absent. */
  lemma HostingBucketUnchangedIffAbsent(bucket: string)
    ensures HostingBucket(bucket) == bucket <==> !Contains(bucket, "-userfiles-")
  {
    match FindFirst(bucket, "-userfiles-")
    case None =>
    case Some(i) =>
      assert |HostingBucket(bucket)| == |bucket| - 2;
  }

  // ---------------------------------------------------------------------------
  // The object key of the storage event
  // ---------------------------------------------------------------------------

  /** `key.replace(/\+/g, ' ')`. */
  function PlusToSpace(s: string): (r: string)
    ensures |r| == |s|
    ensures forall k :: 0 <= k < |s| ==> r[k] == if s[k] == '+' then ' ' else s[k]
  {
    if s == [] then [] else [if s[0] == '+' then ' ' else s[0]] + PlusToSpace(s[1..])
  }

  lemma {:induction false} PlusToSpaceAppend(a: string, b: string)
    ensures PlusToSpace(a + b) == PlusToSpace(a) + PlusToSpace(b)
  {
    var l, r := PlusToSpace(a + b), PlusToSpace(a) + PlusToSpace(b);
    assert |l| == |r|;
    forall k | 0 <= k < |l| ensures l[k] == r[k] {
      if k < |a| { assert (a + b)[k] == a[k]; } else { assert (a + b)[k] == b[k - |a|]; }
    }
  }

  predicate IsHexDigit(c: char)
  {
    '0' <= c <= '9' || 'a' <= c <= 'f' || 'A' <= c <= 'F'
  }

  function HexValue(c: char): (v: nat)
    requires IsHexDigit(c)
    ensures v < 16
  {
    if '0' <= c <= '9' then (c as int) - ('0' as int)
    else if 'a' <= c <= 'f' then (c as int) - ('a' as int) + 10
    else (c as int) - ('A' as int) + 10
  }

  function HexChar(v: nat): (c: char)
    requires v < 16
    ensures IsHexDigit(c) && HexValue(c) == v
  {
    if v < 10 then (('0' as int) + v) as char else (('A' as int) + v - 10) as char
  }

  /**
   * The outcome of `decodeURIComponent`. Escapes of characters outside ASCII
   * (which it decodes as UTF-8) are not part of this model.
   */
  datatype DecodedKey = Decoded(key: string) | MalformedEscape | NonAsciiEscape

  function Prepend(c: char, d: DecodedKey): DecodedKey
  {
    if d.Decoded? then Decoded([c] + d.key) else d
  }

  /** `decodeURIComponent` on ASCII: every `%XY` becomes the character with code 0xXY. */
  function DecodeUriComponent(s: string): DecodedKey
  {
    if s == [] then Decoded([])
    else if s[0] != '%' then Prepend(s[0], DecodeUriComponent(s[1..]))
    else if |s| < 3 || !IsHexDigit(s[1]) || !IsHexDigit(s[2]) then MalformedEscape
    else
      var code := HexValue(s[1]) * 16 + HexValue(s[2]);
      if code < 128 then Prepend(code as char, DecodeUriComponent(s[3..])) else NonAsciiEscape
  }

  /** `decodeURIComponent(key.replace(/\+/g, ' '))`. */
  function EventObjectKey(rawKey: string): DecodedKey
  {
    DecodeUriComponent(PlusToSpace(rawKey))
  }

  predicate IsAscii(s: string) { forall k :: 0 <= k < |s| ==> s[k] < 128 as char }

  /** Characters a form-urlencoded key carries unescaped. */
  predicate IsUnreserved(c: char)
  {
    'a' <= c <= 'z' || 'A' <= c <= 'Z' || '0' <= c <= '9' || c == '-' || c == '_' || c == '.' || c == '*'
  }

  /** How the storage event spells one key character: space as `+`, unreserved as is, the rest `%XY`. */
  function EncodeChar(c: char): (r: string)
    requires c < 128 as char
  {
    if c == ' ' then "+"
    else if IsUnreserved(c) then [c]
    else ['%', HexChar(c as nat / 16), HexChar(c as nat % 16)]
  }

  /** The form-urlencoded spelling of an ASCII key, as storage events deliver it. */
  function FormEncode(key: string): string
    requires IsAscii(key)
  {
    if key == [] then [] else EncodeChar(key[0]) + FormEncode(key[1..])
  }

  lemma DecodeEncodedChar(c: char, rest: string)
    requires c < 128 as char
    ensures DecodeUriComponent(PlusToSpace(EncodeChar(c)) + rest) == Prepend(c, DecodeUriComponent(rest))
  {
    var token := PlusToSpace(EncodeChar(c));
    var s := token + rest;
    if c == ' ' {
      assert token == " ";
      assert s[1..] == rest;
    } else if IsUnreserved(c) {
      assert token == [c];
      assert s[1..] == rest;
    } else {
      var hi, lo := HexChar(c as nat / 16), HexChar(c as nat % 16);
      assert token == ['%', hi, lo];
      assert s[0] == '%' && s[1] == hi && s[2] == lo && s[3..] == rest;
      assert (HexValue(hi) * 16 + HexValue(lo)) as char == c;
    }
  }

  /** The object key is recovered from its event spelling, `+` and `%2B` alike. */
  lemma {:induction false} EventKeyRoundTrip(key: string)
    requires IsAscii(key)
    ensures EventObjectKey(FormEncode(key)) == Decoded(key)
  {
    if key != [] {
      var tail := FormEncode(key[1..]);
      PlusToSpaceAppend(EncodeChar(key[0]), tail);
      DecodeEncodedChar(key[0], PlusToSpace(tail));
      EventKeyRoundTrip(key[1..]);
      assert [key[0]] + key[1..] == key;
    }
  }

  /** A literal `+` reaches the handler as `%2B` and survives; a `+` decodes to a space. */
  lemma PlusAndEscapedPlus()
    ensures EventObjectKey("a%2Bb+c") == Decoded("a+b c")
  {
    assert FormEncode("a+b c") == "a%2Bb+c" by {
      assert "a+b c"[1..] == "+b c" && "+b c"[1..] == "b c" && "b c"[1..] == " c" && " c"[1..] == "c";
      assert HexChar(2) == '2' && HexChar(11) == 'B';
    }
    EventKeyRoundTrip("a+b c");
  }

  // ---------------------------------------------------------------------------
  // listFilesFromS3: paginated listing
  // ---------------------------------------------------------------------------

  datatype ObjectListing = ObjectListing(keys: seq<string>, isTruncated: bool)

  /** One answer of `listObjects`. */
  datatype ListReply = Listed(listing: ObjectListing) | ListFailed(error: string)

  /**
   * How a listing ends: the callback receives the files or the error; an empty
   * truncated page makes `Contents[length-1].Key` throw, so the callback never
   * runs; with the replies exhausted, the next request is still outstanding.
   */
  datatype ListOutcome = Files(files: seq<string>) | ListError(error: string) | EmptyTruncatedPage | AwaitingReply

  /** A reply after which the listing asks for the next page. */
  predicate Continues(r: ListReply)
  {
    r.Listed? && r.listing.isTruncated && |r.listing.keys| > 0
  }

  /** The number of replies that ask for a further page before the first that does not. */
  function PagesBeforeLast(replies: seq<ListReply>): (n: nat)
    ensures n <= |replies|
    ensures forall k :: 0 <= k < n ==> Continues(replies[k])
    ensures n < |replies| ==> !Continues(replies[n])
  {
    if replies == [] || !Continues(replies[0]) then 0 else 1 + PagesBeforeLast(replies[1..])
  }

  /** The keys of the listed pages, page after page. */
  function KeysOf(replies: seq<ListReply>): seq<string>
  {
    if replies == [] then []
    else KeysOf(replies[..|replies| - 1]) + (match replies[|replies| - 1] case Listed(l) => l.keys case ListFailed(_) => [])
  }

  lemma KeysOfStep(replies: seq<ListReply>, n: nat)
    requires n < |replies| && replies[n].Listed?
    ensures KeysOf(replies[..n + 1]) == KeysOf(replies[..n]) + replies[n].listing.keys
  {
    assert replies[..n + 1][..n] == replies[..n];
  }

  /** The listing gathers the keys of every page it receives, in order, and no others. */
  lemma {:induction false} KeysOfPages(replies: seq<ListReply>, k: nat, i: nat)
    requires k < |replies| && replies[k].Listed? && i < |replies[k].listing.keys|
    ensures replies[k].listing.keys[i] in KeysOf(replies)
  {
    var last := |replies| - 1;
    if k < last {
      KeysOfPages(replies[..last], k, i);
    }
  }

  lemma {:induction false} KeysOfFromPages(replies: seq<ListReply>, key: string)
    requires key in KeysOf(replies)
    ensures exists k, i :: 0 <= k < |replies| && replies[k].Listed? && 0 <= i < |replies[k].listing.keys|
                           && replies[k].listing.keys[i] == key
  {
    var last := |replies| - 1;
    var front := replies[..last];
    if key in KeysOf(front) {
      KeysOfFromPages(front, key);
      var k, i :| 0 <= k < |front| && front[k].Listed? && 0 <= i < |front[k].listing.keys|
                  && front[k].listing.keys[i] == key;
      assert replies[k] == front[k];
    } else {
      var i :| 0 <= i < |replies[last].listing.keys| && replies[last].listing.keys[i] == key;
    }
  }

  /** `if (marker) params.Marker = marker`: the marker sent after a page, its last key. */
  function NextMarker(keys: seq<string>): Option<string>
    requires |keys| > 0
  {
    var last := keys[|keys| - 1];
    if last == "" then None else Some(last)
  }

  /** What the recursion reports once the reply that does not ask for more arrives. */
  function FinalOutcome(replies: seq<ListReply>): ListOutcome
  {
    var n := PagesBeforeLast(replies);
    if n == |replies| then AwaitingReply
    else match replies[n]
      case ListFailed(e) => ListError(e)
      case Listed(l) => if l.isTruncated then EmptyTruncatedPage else Files(KeysOf(replies[..n + 1]))
  }

  /** `data.Contents.forEach(file => files.push(file.Key))`. */
  method PushAll(files: seq<string>, keys: seq<string>) returns (r: seq<string>)
    ensures r == files + keys
  {
    r := files;
    var i := 0;
    while i < |keys|
      invariant i <= |keys|
      invariant r == files + keys[..i]
    {
      r := r + [keys[i]];
      i := i + 1;
    }
    assert keys[..i] == keys;
  }

  /**
   * `listFilesFromS3(bucket, null, files, callback)` fed the successive replies
   * of the storage service. `markers` are the Marker parameters of the requests
   * issued, the first without one.
   */
  method ListFilesFromS3(replies: seq<ListReply>) returns (outcome: ListOutcome, markers: seq<Option<string>>)
    ensures outcome == FinalOutcome(replies)
    ensures |markers| == PagesBeforeLast(replies) + 1 && markers[0] == None
    ensures forall k :: 0 <= k < |markers| - 1 ==> markers[k + 1] == NextMarker(replies[k].listing.keys)
  {
    var files: seq<string> := [];
    markers := [None];
    var n := 0;
    while n < |replies|
      invariant n <= PagesBeforeLast(replies)
      invariant files == KeysOf(replies[..n])
      invariant |markers| == n + 1 && markers[0] == None
      invariant forall k :: 0 <= k < n ==> markers[k + 1] == NextMarker(replies[k].listing.keys)
    {
      match replies[n]
      case ListFailed(e) =>
        outcome := ListError(e);
        return;
      case Listed(page) =>
        files := PushAll(files, page.keys);
        KeysOfStep(replies, n);
        if !page.isTruncated {
          outcome := Files(files);
          return;
        }
        if |page.keys| == 0 {
          outcome := EmptyTruncatedPage;
          return;
        }
        markers := markers + [NextMarker(page.keys)];
        n := n + 1;
    }
    outcome := AwaitingReply;
  }

  // ---------------------------------------------------------------------------
  // appendJobToContentIndex: the new index
  // ---------------------------------------------------------------------------

  function Elements(s: seq<string>): set<string>
  {
    set x | x in s
  }

  /** The folder names the listing contributes: the rewrite of every key that passes the filter. */
  ghost function IndexedFolders(fileList: seq<string>): set<string>
  {
    set key | key in fileList && InContentFolder(key) :: FolderName(key)
  }

  predicate StrictlyDescending(s: seq<string>)
  {
    forall i, j :: 0 <= i < j < |s| ==> Less(s[j], s[i])
  }

  /**
   * What `JSON.stringify(Object.keys(fileMap).sort().reverse())` lists: every
   * indexed folder and the new video id, each once, greatest first.
   */
  ghost predicate IsContentIndexFor(index: seq<string>, fileList: seq<string>, videoId: string)
  {
    StrictlyDescending(index) && Elements(index) == IndexedFolders(fileList) + {videoId}
  }

  /** Inserts x into a strictly descending sequence, once. */
  function InsertDescending(x: string, s: seq<string>): (r: seq<string>)
    requires StrictlyDescending(s)
    ensures StrictlyDescending(r) && Elements(r) == Elements(s) + {x}
  {
    if s == [] then [x]
    else if x == s[0] then s
    else if Less(s[0], x) then
      assert forall j :: 0 <= j < |s| ==> Less(s[j], x) by {
        forall j | 0 < j < |s| ensures Less(s[j], x) { LessTransitive(s[j], s[0], x); }
      }
      PrependGreatest(x, s);
      [x] + s
    else
      LessTotal(x, s[0]);
      var tail := InsertDescending(x, s[1..]);
      TailBelowHead(x, s, tail);
      PrependGreatest(s[0], tail);
      assert Elements(s) == {s[0]} + Elements(s[1..]);
      [s[0]] + tail
  }

  /** Putting an entry above all others in front keeps a sequence strictly descending. */
  lemma PrependGreatest(h: string, t: seq<string>)
    requires StrictlyDescending(t)
    requires forall j :: 0 <= j < |t| ==> Less(t[j], h)
    ensures StrictlyDescending([h] + t) && Elements([h] + t) == {h} + Elements(t)
  {
    var r := [h] + t;
    assert forall i :: 0 < i < |r| ==> r[i] == t[i - 1];
  }

  lemma TailBelowHead(x: string, s: seq<string>, tail: seq<string>)
    requires StrictlyDescending(s) && s != [] && Less(x, s[0])
    requires Elements(tail) == Elements(s[1..]) + {x}
    ensures forall j :: 0 <= j < |tail| ==> Less(tail[j], s[0])
  {
    forall j | 0 <= j < |tail| ensures Less(tail[j], s[0]) {
      assert tail[j] in Elements(tail);
      if tail[j] != x {
        var k :| 0 <= k < |s[1..]| && s[1..][k] == tail[j];
        assert s[k + 1] == tail[j];
      }
    }
  }

  /** `Object.keys(fileMap).sort().reverse()`. */
  method SortedKeysDescending(keys: set<string>) returns (sorted: seq<string>)
    ensures StrictlyDescending(sorted) && Elements(sorted) == keys
  {
    sorted := [];
    var rest := keys;
    while rest != {}
      invariant StrictlyDescending(sorted)
      invariant Elements(sorted) + rest == keys
      decreases rest
    {
      var key :| key in rest;
      sorted := InsertDescending(key, sorted);
      rest := rest - {key};
    }
  }

  /** The index computation of appendJobToContentIndex, once the listing is complete. */
  method NewContentIndex(fileList: seq<string>, videoId: string) returns (newIndex: seq<string>)
    ensures IsContentIndexFor(newIndex, fileList, videoId)
  {
    var fileMap: set<string> := {};
    var i := 0;
    while i < |fileList|
      invariant i <= |fileList|
      invariant fileMap == IndexedFolders(fileList[..i])
    {
      var filename := fileList[i];
      assert fileList[..i + 1] == fileList[..i] + [filename];
      if InContentFolder(filename) {
        fileMap := fileMap + {FolderName(filename)};
      }
      i := i + 1;
    }
    assert fileList[..i] == fileList;
    fileMap := fileMap + {videoId};
    newIndex := SortedKeysDescending(fileMap);
  }

  /** Dropping the head of a strictly descending sequence removes exactly that element. */
  lemma TailElements(s: seq<string>)
    requires StrictlyDescending(s) && s != []
    ensures Elements(s[1..]) == Elements(s) - {s[0]}
  {
    forall x | x in Elements(s[1..]) ensures x != s[0] {
      var k :| 1 <= k < |s| && s[k] == x;
      LessIrreflexive(s[0]);
    }
    assert Elements(s) == {s[0]} + Elements(s[1..]);
  }

  /** A strictly descending sequence is determined by its elements. */
  lemma {:induction false} DescendingUnique(a: seq<string>, b: seq<string>)
    requires StrictlyDescending(a) && StrictlyDescending(b) && Elements(a) == Elements(b)
    ensures a == b
  {
    if a != [] { assert a[0] in Elements(a); }
    if b != [] { assert b[0] in Elements(b); }
    if a != [] && b != [] {
      if a[0] != b[0] {
        HeadIsGreatest(a, b[0]);
        HeadIsGreatest(b, a[0]);
        LessAsymmetric(a[0], b[0]);
      }
      TailElements(a);
      TailElements(b);
      DescendingUnique(a[1..], b[1..]);
    }
  }

  lemma HeadIsGreatest(s: seq<string>, e: string)
    requires StrictlyDescending(s) && e in Elements(s) && e != s[0]
    ensures Less(e, s[0])
  {
    var k :| 0 <= k < |s| && s[k] == e;
  }

  lemma SameKeysSameFolders(fx: seq<string>, fy: seq<string>)
    requires Elements(fx) == Elements(fy)
    ensures IndexedFolders(fx) == IndexedFolders(fy)
  {
    forall e | e in IndexedFolders(fx) ensures e in IndexedFolders(fy) {
      var key :| key in fx && InContentFolder(key) && FolderName(key) == e;
      assert key in Elements(fy);
    }
    forall e | e in IndexedFolders(fy) ensures e in IndexedFolders(fx) {
      var key :| key in fy && InContentFolder(key) && FolderName(key) == e;
      assert key in Elements(fx);
    }
  }

  /**
   * The index depends only on which keys are listed, not on their order or
   * repetitions.
   */
  lemma IndexIndependentOfListing(x: seq<string>, fx: seq<string>, y: seq<string>, fy: seq<string>, videoId: string)
    requires IsContentIndexFor(x, fx, videoId) && IsContentIndexFor(y, fy, videoId)
    requires Elements(fx) == Elements(fy)
    ensures x == y
  {
    SameKeysSameFolders(fx, fy);
    DescendingUnique(x, y);
  }

  /** The index has no duplicates and opens with its greatest entry. */
  lemma IndexHeadIsGreatest(index: seq<string>, fileList: seq<string>, videoId: string)
    requires IsContentIndexFor(index, fileList, videoId)
    ensures |index| > 0 && |Elements(index)| == |index|
    ensures forall k :: 0 < k < |index| ==> Less(index[k], index[0]) && index[k] != index[0]
  {
    assert videoId in Elements(index);
    forall k | 0 < k < |index| ensures index[k] != index[0] {
      LessIrreflexive(index[0]);
    }
    DistinctCard(index);
  }

  lemma {:induction false} DistinctCard(s: seq<string>)
    requires StrictlyDescending(s)
    ensures |Elements(s)| == |s|
  {
    if s != [] {
      assert Elements(s) == {s[0]} + Elements(s[1..]);
      assert s[0] !in Elements(s[1..]) by {
        if s[0] in Elements(s[1..]) {
          var k :| 1 <= k < |s| && s[k] == s[0];
          LessIrreflexive(s[0]);
        }
      }
      DistinctCard(s[1..]);
    }
  }

  /** Folder names of videos uploaded earlier with timestamps of the same number of digits. */
  ghost predicate OlderVideo(entry: string, nowMillis: nat)
  {
    exists t: nat, field: string ::
      t < nowMillis && |DecimalString(t)| == |DecimalString(nowMillis)| && entry == DecimalString(t) + "-" + field
  }

  /**
   * When every other content folder is an earlier video id, the new video
   * tops the index, which is the entry both players poll for.
   */
  lemma NewestVideoFirst(index: seq<string>, fileList: seq<string>, nowMillis: nat, principalId: string)
    requires IsContentIndexFor(index, fileList, VideoId(nowMillis, principalId))
    requires forall e :: e in IndexedFolders(fileList) ==> e == VideoId(nowMillis, principalId) || OlderVideo(e, nowMillis)
    ensures index[0] == VideoId(nowMillis, principalId)
  {
    var v := VideoId(nowMillis, principalId);
    forall e | e in Elements(index) && e != v ensures Less(e, v) {
      assert e in IndexedFolders(fileList);
      OlderVideoIsLess(e, nowMillis, principalId);
    }
    GreatestIsHead(index, v);
  }

  /** An element above all others heads a strictly descending sequence. */
  lemma GreatestIsHead(s: seq<string>, v: string)
    requires StrictlyDescending(s) && v in Elements(s)
    requires forall e :: e in Elements(s) && e != v ==> Less(e, v)
    ensures s != [] && s[0] == v
  {
    assert s != [];
    if s[0] != v {
      assert s[0] in Elements(s);
      HeadIsGreatest(s, v);
      LessAsymmetric(s[0], v);
    }
  }

  lemma OlderVideoIsLess(e: string, nowMillis: nat, principalId: string)
    requires OlderVideo(e, nowMillis)
    ensures Less(e, VideoId(nowMillis, principalId))
  {
    var t: nat, field: string :| t < nowMillis && |DecimalString(t)| == |DecimalString(nowMillis)|
      && e == DecimalString(t) + "-" + field;
    EarlierVideoIdIsLess(t, field, nowMillis, principalId);
  }

  lemma EarlierVideoIdIsLess(t: nat, field: string, nowMillis: nat, principalId: string)
    requires t < nowMillis && |DecimalString(t)| == |DecimalString(nowMillis)|
    ensures Less(DecimalString(t) + "-" + field, VideoId(nowMillis, principalId))
  {
    var d, n := DecimalString(t), DecimalString(nowMillis);
    DecimalOrder(t, nowMillis);
    LessExtend(d, n, "-" + field, "-" + SecondField(principalId));
    assert d + "-" + field == d + ("-" + field);
    assert VideoId(nowMillis, principalId) == n + ("-" + SecondField(principalId));
  }

  /**
   * The order is by string, not by age: a folder-marker key such as
   * `content/a/` passes the filter, is kept whole, and sorts above every
   * video id, since every video id opens with a digit. The index then opens
   * with the marker, and both players poll for it instead of the new video.
   */
  lemma FolderMarkerHeadsIndex(index: seq<string>, nowMillis: nat, principalId: string)
    requires IsContentIndexFor(index, ["content/a/"], VideoId(nowMillis, principalId))
    ensures index == ["content/a/", VideoId(nowMillis, principalId)]
  {
    IndexFileAndFolderMarker();
    assert IndexedFolders(["content/a/"]) == {"content/a/"};
    VideoIdBelowMarker(nowMillis, principalId);
    DescendingPair(index, "content/a/", VideoId(nowMillis, principalId));
  }

  lemma VideoIdBelowMarker(nowMillis: nat, principalId: string)
    ensures Less(VideoId(nowMillis, principalId), "content/a/")
  {
    var v := VideoId(nowMillis, principalId);
    assert IsDigit(DecimalString(nowMillis)[0]);
    assert v[0] == DecimalString(nowMillis)[0];
  }

  /** A strictly descending sequence of two elements lists the greater first. */
  lemma DescendingPair(s: seq<string>, m: string, v: string)
    requires StrictlyDescending(s) && Elements(s) == {v, m} && Less(v, m)
    ensures s == [m, v]
  {
    LessIrreflexive(v);
    GreatestIsHead(s, m);
    DistinctCard(s);
    assert |s| == 2 by {
      assert |{v, m}| == 2;
    }
    assert s[1] in Elements(s) && s[1] != m;
  }

  /** What appendJobToContentIndex hands on: the object to put, or the message for its callback. */
  datatype IndexUpdate =
    | PutIndex(bucket: string, key: string, entries: seq<string>)
    | ListingFailed(message: string)
    | NoCallback

  /**
   * `appendJobToContentIndex(bucket, videoId, callback)`, fed the replies of
   * the listing it starts.
   */
  method AppendJobToContentIndex(bucket: string, videoId: string, replies: seq<ListReply>) returns (update: IndexUpdate)
    ensures FinalOutcome(replies).Files? <==> update.PutIndex?
    ensures update.PutIndex? ==>
      (update.bucket == bucket && update.key == IndexKey &&
       IsContentIndexFor(update.entries, FinalOutcome(replies).files, videoId))
    ensures FinalOutcome(replies).ListError? <==> update.ListingFailed?
    ensures update.ListingFailed? ==>
      update.message == "Unable to list files in bucket " + bucket + ". " + FinalOutcome(replies).error
  {
    var outcome, _ := ListFilesFromS3(replies);
    match outcome
    case Files(fileList) =>
      var newIndex := NewContentIndex(fileList, videoId);
      update := PutIndex(bucket, IndexKey, newIndex);
    case ListError(err) =>
      update := ListingFailed("Unable to list files in bucket " + bucket + ". " + err);
    case EmptyTruncatedPage =>
      update := NoCallback;
    case AwaitingReply =>
      update := NoCallback;
  }
}
