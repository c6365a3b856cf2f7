/** The path stage: everything up to the first `#` or `?`. */
module PathParser {
  import opened Text
  import opened UriTypes

  /** The characters that end a path. */
  const PathEnd: set<char> := {'#', '?'}

  /** `parse_path`: the path runs to the first `#` or `?`, which is dropped;
      the rest is what follows it, or empty when there is neither. */
  function Parse(uri: string): (r: Stage<string>)
    ensures r.error == None && '#' !in r.value && '?' !in r.value
    ensures r.value <= uri && |r.value| + |r.rest| <= |uri|
  {
    match FindFirstOf(uri, PathEnd)
    case NPos => Stage(uri, None, "")
    case At(pos) => Stage(uri[..pos], None, uri[pos + 1..])
  }

  /** The stage never fails; the path holds neither `#` nor `?`; and the
      input is the path, the delimiter that ended it and the rest. */
  lemma ParseSplits(uri: string)
    ensures var r := Parse(uri);
      && r.error == None
      && '#' !in r.value && '?' !in r.value
      && (if '#' in uri || '?' in uri
          then |r.value| < |uri| && uri[|r.value|] in PathEnd && uri == r.value + [uri[|r.value|]] + r.rest
          else r.value == uri && r.rest == "")
  {
    var r := Parse(uri);
    match FindFirstOf(uri, PathEnd)
    case NPos =>
      assert '#' !in uri && '?' !in uri;
    case At(pos) =>
      assert r.value == uri[..pos];
      SplitAround(uri, pos);
      assert forall j :: 0 <= j < pos ==> r.value[j] == uri[j];
  }

  /** A path followed by `#` or `?` and any rest splits back into the two. */
  lemma ParseComposed(path: string, delimiter: char, rest: string)
    requires '#' !in path && '?' !in path && delimiter in PathEnd
    ensures Parse(path + [delimiter] + rest) == Stage(path, None, rest)
  {
    var uri := path + [delimiter] + rest;
    forall j | 0 <= j < |path| ensures uri[j] !in PathEnd {
      assert uri[j] == path[j];
    }
    FindFirstOfAt(uri, PathEnd, |path|);
    assert uri[..|path|] == path;
    assert uri[|path| + 1..] == rest;
  }
}
