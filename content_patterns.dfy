/**
 * The two regular expressions with which the transcoding function turns a
 * bucket listing into content folder names:
 *
 *   the filter   /content\/.+\//        "the key lies in a folder under content/"
 *   the rewrite  /content\/(.+)\/.+/    replaced by '$1', first match only
 *
 * Both are unanchored and use `.`, which in JavaScript matches any character
 * except a line terminator. The matcher below follows the backtracking
 * engine's choice: the leftmost start position that admits a match, and at
 * that start the longest capture (greedy `.+`) that still lets the rest match.
 */
module ContentPatterns {
  import opened Strings

  const ContentFolder: string := "content/"

  /** The characters JavaScript's `.` refuses to match. */
  predicate IsLineTerminator(c: char)
  {
    c == '\n' || c == '\r' || c == '\U{2028}' || c == '\U{2029}'
  }

  predicate NoLineTerminator(s: string)
  {
    forall k :: 0 <= k < |s| ==> !IsLineTerminator(s[k])
  }

  /** The literal `content/` starts at position i. */
  predicate FolderAt(s: string, i: nat)
  {
    OccursAt(s, ContentFolder, i)
  }

  /** The first line terminator at or after p, or the end of s: how far `.+` can reach from p. */
  function LineEnd(s: string, p: nat): (e: nat)
    requires p <= |s|
    decreases |s| - p
    ensures p <= e <= |s|
    ensures forall k :: p <= k < e ==> !IsLineTerminator(s[k])
    ensures e < |s| ==> IsLineTerminator(s[e])
  {
    if p == |s| || IsLineTerminator(s[p]) then p else LineEnd(s, p + 1)
  }

  /** The last `/` in s[lo..hi], if any. */
  function LastSlash(s: string, lo: nat, hi: nat): (r: Option<nat>)
    requires hi <= |s|
    decreases hi
    ensures r.Some? ==> lo <= r.value < hi && s[r.value] == '/'
    ensures r.Some? ==> forall k :: r.value < k < hi ==> s[k] != '/'
    ensures r.None? ==> forall k :: lo <= k < hi ==> s[k] != '/'
  {
    if hi <= lo then None
    else if s[hi - 1] == '/' then Some(hi - 1)
    else LastSlash(s, lo, hi - 1)
  }

  // ---------------------------------------------------------------------------
  // The filter /content\/.+\//
  // ---------------------------------------------------------------------------

  /** The filter matches s from position i, with its closing `/` at position j. */
  ghost predicate FilterMatch(s: string, i: nat, j: nat)
  {
    FolderAt(s, i) && i + 8 < j < |s| && s[j] == '/' &&
    forall k :: i + 8 <= k < j ==> !IsLineTerminator(s[k])
  }

  lemma FilterMatchBounds(s: string, i: nat, j: nat)
    requires FolderAt(s, i)
    ensures FilterMatch(s, i, j) <==> i + 9 <= j < LineEnd(s, i + 8) && s[j] == '/'
  {
    var e := LineEnd(s, i + 8);
    if FilterMatch(s, i, j) && e <= j {
      assert IsLineTerminator(s[e]);
    }
  }

  /** Whether the filter matches with a start position at or after i. */
  function FilterFrom(s: string, i: nat): (b: bool)
    requires i <= |s|
    decreases |s| - i
    ensures b <==> exists m: nat, j: nat :: i <= m && FilterMatch(s, m, j)
  {
    if i + 8 > |s| then
      assert forall m: nat, j: nat :: i <= m ==> !FilterMatch(s, m, j);
      false
    else if FolderAt(s, i) && LastSlash(s, i + 9, LineEnd(s, i + 8)).Some? then
      FilterMatchBounds(s, i, LastSlash(s, i + 9, LineEnd(s, i + 8)).value);
      true
    else
      assert forall j: nat :: !FilterMatch(s, i, j) by {
        if FolderAt(s, i) {
          forall j: nat ensures !FilterMatch(s, i, j) {
            FilterMatchBounds(s, i, j);
          }
        }
      }
      FilterFrom(s, i + 1)
  }

  /** `filename.match(/content\/.+\//)` is truthy. */
  predicate InContentFolder(key: string)
    ensures InContentFolder(key) <==> exists i: nat, j: nat :: FilterMatch(key, i, j)
  {
    FilterFrom(key, 0)
  }

  // ---------------------------------------------------------------------------
  // The rewrite /content\/(.+)\/.+/ -> '$1'
  // ---------------------------------------------------------------------------

  /**
   * The rewrite pattern matches s from position i with the capture ending at
   * the `/` at position j: the capture s[i+8..j] is not empty, and at least one
   * matchable character follows the slash.
   */
  ghost predicate RewriteMatch(s: string, i: nat, j: nat)
  {
    FolderAt(s, i) && i + 8 < j && j + 1 < |s| && s[j] == '/' &&
    forall k :: i + 8 <= k <= j + 1 ==> !IsLineTerminator(s[k])
  }

  /** The match the engine reports: leftmost start, then the longest capture. */
  ghost predicate ChosenMatch(s: string, i: nat, j: nat)
  {
    && RewriteMatch(s, i, j)
    && (forall m: nat, j': nat :: m < i ==> !RewriteMatch(s, m, j'))
    && (forall j': nat :: j < j' ==> !RewriteMatch(s, i, j'))
  }

  lemma RewriteMatchBounds(s: string, i: nat, j: nat)
    requires FolderAt(s, i)
    ensures RewriteMatch(s, i, j) <==> i + 9 <= j && j + 1 < LineEnd(s, i + 8) && s[j] == '/'
  {
  }

  datatype Match = Match(start: nat, slash: nat)

  /** The first rewrite match whose start is at or after i. */
  function RewriteFrom(s: string, i: nat): (r: Option<Match>)
    requires i <= |s|
    decreases |s| - i
    ensures r.None? ==> forall m: nat, j: nat :: i <= m ==> !RewriteMatch(s, m, j)
    ensures r.Some? ==> i <= r.value.start && RewriteMatch(s, r.value.start, r.value.slash)
    ensures r.Some? ==> forall m: nat, j: nat :: i <= m < r.value.start ==> !RewriteMatch(s, m, j)
    ensures r.Some? ==> forall j: nat :: r.value.slash < j ==> !RewriteMatch(s, r.value.start, j)
  {
    if i + 8 > |s| then
      assert forall m: nat, j: nat :: i <= m ==> !RewriteMatch(s, m, j);
      None
    else
      var found := if FolderAt(s, i) then LastSlash(s, i + 9, LineEnd(s, i + 8) - 1) else None;
      if found.Some? then
        var j := found.value;
        RewriteMatchBounds(s, i, j);
        assert forall j': nat :: j < j' ==> !RewriteMatch(s, i, j') by {
          forall j': nat | j < j' ensures !RewriteMatch(s, i, j') {
            RewriteMatchBounds(s, i, j');
          }
        }
        Some(Match(i, j))
      else
        assert forall j: nat :: !RewriteMatch(s, i, j) by {
          if FolderAt(s, i) {
            forall j: nat ensures !RewriteMatch(s, i, j) {
              RewriteMatchBounds(s, i, j);
            }
          }
        }
        RewriteFrom(s, i + 1)
  }

  /**
   * `filename.replace(/content\/(.+)\/.+/, '$1')`: the text before the match,
   * then the capture; the trailing `.+` consumes up to the end of the line.
   */
  function FolderName(key: string): (r: string)
    ensures (forall i: nat, j: nat :: !RewriteMatch(key, i, j)) ==> r == key
    ensures forall i: nat, j: nat :: ChosenMatch(key, i, j) ==>
              r == key[..i] + key[i + 8..j] + key[LineEnd(key, j + 1)..]
  {
    match RewriteFrom(key, 0)
    case None => key
    case Some(Match(i, j)) =>
      assert ChosenMatch(key, i, j);
      assert forall i': nat, j': nat :: ChosenMatch(key, i', j') ==> i' == i && j' == j by {
        forall i': nat, j': nat | ChosenMatch(key, i', j') ensures i' == i && j' == j {
          ChosenMatchUnique(key, i, j, i', j');
        }
      }
      key[..i] + key[i + 8..j] + key[LineEnd(key, j + 1)..]
  }

  /** The engine's choice is a single match. */
  lemma ChosenMatchUnique(s: string, i: nat, j: nat, i': nat, j': nat)
    requires ChosenMatch(s, i, j) && ChosenMatch(s, i', j')
    ensures i == i' && j == j'
  {
  }

  /** Every key the rewrite changes also passes the filter. */
  lemma RewriteImpliesFilter(key: string)
    requires FolderName(key) != key
    ensures InContentFolder(key)
  {
    var r := RewriteFrom(key, 0);
    if r.Some? {
      assert FilterMatch(key, r.value.start, r.value.slash);
    }
  }

  /**
   * The files the transcoder writes under `content/<v>/` are indexed as v:
   * the filter keeps them and the rewrite recovers exactly the folder name,
   * whatever slashes v itself contains.
   */
  lemma FolderNameOfOutput(v: string, file: string)
    requires v != [] && NoLineTerminator(v)
    requires file != [] && NoLineTerminator(file) && '/' !in file
    ensures InContentFolder(ContentFolder + v + "/" + file)
    ensures FolderName(ContentFolder + v + "/" + file) == v
  {
    var s := ContentFolder + v + "/" + file;
    var j := 8 + |v|;
    OutputKeyMatch(v, file);
    assert FilterMatch(s, 0, j);
    var e := LineEnd(s, j + 1);
    assert s[e..] == [];
    calc {
      FolderName(s);
      s[..0] + s[8..j] + s[e..];
      [] + v + [];
      v;
    }
  }

  /** Where the patterns match in a key of the form `content/<v>/<file>`. */
  lemma OutputKeyMatch(v: string, file: string)
    requires v != [] && NoLineTerminator(v)
    requires file != [] && NoLineTerminator(file) && '/' !in file
    ensures var s := ContentFolder + v + "/" + file;
      && s[..0] == [] && s[8..8 + |v|] == v
      && ChosenMatch(s, 0, 8 + |v|) && LineEnd(s, 9 + |v|) == |s|
  {
    var s := ContentFolder + v + "/" + file;
    var j := 8 + |v|;
    OutputKeyLayout(v, file);
    assert RewriteMatch(s, 0, j);
    assert forall j': nat :: j < j' ==> !RewriteMatch(s, 0, j') by {
      forall j': nat | j < j' ensures !RewriteMatch(s, 0, j') {
        if j' < |s| {
          assert s[j'] == file[j' - j - 1];
        }
      }
    }
    var e := LineEnd(s, j + 1);
    assert e == |s|;
  }

  lemma OutputKeyLayout(v: string, file: string)
    ensures var s := ContentFolder + v + "/" + file;
      && FolderAt(s, 0) && s[8 + |v|] == '/' && s[8..8 + |v|] == v && s[..0] == [] && s[|s|..] == []
      && (forall k :: 8 <= k < 8 + |v| ==> s[k] == v[k - 8])
      && (forall k :: 8 + |v| < k < |s| ==> s[k] == file[k - 9 - |v|])
  {
    var s := ContentFolder + v + "/" + file;
    assert s[..8] == ContentFolder;
  }

  /** The capture runs up to the last `/`: a file two folders down is indexed by its folder path. */
  lemma NestedFolderKey()
    ensures InContentFolder("content/a/b/c.ts") && FolderName("content/a/b/c.ts") == "a/b"
  {
    assert ContentFolder + "a/b" + "/" + "c.ts" == "content/a/b/c.ts";
    FolderNameOfOutput("a/b", "c.ts");
  }

  /** The index file itself and a bare folder marker, as the listing shows them. */
  lemma IndexFileAndFolderMarker()
    ensures !InContentFolder("content/index.json")
    ensures InContentFolder("content/a/") && FolderName("content/a/") == "content/a/"
  {
    var idx := "content/index.json";
    forall i: nat, j: nat ensures !FilterMatch(idx, i, j) {
      if FolderAt(idx, i) {
        OnlyStartAtZero(idx, i);
        assert forall k :: 8 <= k < |idx| ==> idx[k] != '/';
      }
    }
    var marker := "content/a/";
    assert marker[..8] == ContentFolder;
    assert FilterMatch(marker, 0, 9);
    forall i: nat, j: nat ensures !RewriteMatch(marker, i, j) {
      if FolderAt(marker, i) {
        OnlyStartAtZero(marker, i);
      }
    }
  }

  /** In a key with no `c` after its first character, `content/` can only start at 0. */
  lemma OnlyStartAtZero(s: string, i: nat)
    requires FolderAt(s, i)
    requires forall k :: 0 < k < |s| ==> s[k] != 'c'
    ensures i == 0
  {
    assert s[i] == s[i..i + 8][0] == 'c';
  }
}
