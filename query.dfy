/** The query stage: the text up to the first `#` is the query string; it is
    cut into arguments at every `&`, `;` or `?`, and each argument into a key
    and a value at its first `=`. A later argument with the same key
    overwrites an earlier one. */
module QueryParser {
  import opened Text
  import opened UriTypes

  /** The characters that separate arguments. */
  const Separators: set<char> := {'&', ';', '?'}

  /** The arguments the loop visits, in order: the text before each
      separator, then the text after the last one when it is non-empty. A
      separator at the very end adds no argument; one at the start, or two
      in a row, add an empty one. */
  function Segments(qs: string): (segs: seq<string>)
    ensures forall i :: 0 <= i < |segs| ==> forall j :: 0 <= j < |segs[i]| ==> segs[i][j] !in Separators
    decreases |qs|
  {
    if qs == [] then []
    else match FindFirstOf(qs, Separators)
      case NPos => [qs]
      case At(d) => [qs[..d]] + Segments(qs[d + 1..])
  }

  /** The key of an argument: the text before its first `=`, or all of it. */
  function Key(arg: string): (k: string)
    ensures '=' !in k
  {
    match Find(arg, '=')
    case NPos => arg
    case At(e) => arg[..e]
  }

  /** The value of an argument: the text after its first `=`, or empty. */
  function Value(arg: string): (v: string)
    ensures '=' in arg ==> arg == Key(arg) + ['='] + v
    ensures '=' !in arg ==> v == ""
  {
    match Find(arg, '=')
    case NPos => ""
    case At(e) => arg[e + 1..]
  }

  /** Storing the arguments one after another into `m`. */
  function Store(m: map<string, string>, segs: seq<string>): (r: map<string, string>)
    ensures m.Keys <= r.Keys
    ensures forall k :: k in r && k !in m ==> '=' !in k
    decreases |segs|
  {
    if segs == [] then m else Store(m[Key(segs[0]) := Value(segs[0])], segs[1..])
  }

  /** The map the query string decodes to. */
  function QueryMap(qs: string): (r: map<string, string>)
    ensures forall k :: k in r ==> '=' !in k
  {
    Store(map[], Segments(qs))
  }

  /** `parse_query`: the query string runs to the first `#`; the rest starts
      after it, and when there is no `#`, `npos + 1` wraps to 0 so the rest
      is the whole input again. */
  function Parse(uri: string): (r: QueryStage)
    ensures r.error == None && '#' !in r.queryString && r.queryString <= uri
  {
    var hashPos := Find(uri, '#');
    var qs := Substr(uri, 0, hashPos);
    QueryStage(QueryMap(qs), qs, None, Suffix(uri, WrapAdd(hashPos, 1)))
  }

  /** The query string is the text before the first `#` and the rest the
      text after it; without a `#` both are the whole input. */
  lemma ParseSplits(uri: string)
    ensures var r := Parse(uri);
      && r.error == None
      && '#' !in r.queryString
      && r.query == QueryMap(r.queryString)
      && (if '#' in uri then uri == r.queryString + ['#'] + r.rest else r.queryString == uri && r.rest == uri)
  {
    match Find(uri, '#')
    case NPos =>
    case At(h) =>
      SplitAround(uri, h);
      assert forall j :: 0 <= j < h ==> uri[..h][j] == uri[j];
  }

  /** A query string without `#`, a `#` and a fragment split back into the
      two, the query string decoded. */
  lemma ParseComposed(qs: string, fragment: string)
    requires '#' !in qs
    ensures Parse(qs + ['#'] + fragment) == QueryStage(QueryMap(qs), qs, None, fragment)
  {
    var uri := qs + ['#'] + fragment;
    assert uri[..|qs|] == qs;
    FindAt(uri, '#', |qs|);
    assert uri[|qs| + 1..] == fragment;
  }

  /** A key is stored exactly when it was already in `m` or some argument
      carries it. */
  lemma {:induction false} StoreHasKey(m: map<string, string>, segs: seq<string>, k: string)
    ensures k in Store(m, segs) <==> k in m || exists i :: 0 <= i < |segs| && Key(segs[i]) == k
    decreases |segs|
  {
    if segs != [] {
      StoreHasKey(m[Key(segs[0]) := Value(segs[0])], segs[1..], k);
      if exists i :: 0 <= i < |segs| && Key(segs[i]) == k {
        var i :| 0 <= i < |segs| && Key(segs[i]) == k;
        if i > 0 { assert Key(segs[1..][i - 1]) == k; }
      }
      if exists i :: 0 <= i < |segs[1..]| && Key(segs[1..][i]) == k {
        var i :| 0 <= i < |segs[1..]| && Key(segs[1..][i]) == k;
        assert Key(segs[i + 1]) == k;
      }
    }
  }

  /** The stored value of a key is that of the last argument carrying it. */
  lemma {:induction false} StoreLastWins(m: map<string, string>, segs: seq<string>, i: nat)
    requires i < |segs|
    requires forall j :: i < j < |segs| ==> Key(segs[j]) != Key(segs[i])
    ensures Key(segs[i]) in Store(m, segs)
    ensures Store(m, segs)[Key(segs[i])] == Value(segs[i])
    decreases |segs|
  {
    var m' := m[Key(segs[0]) := Value(segs[0])];
    if i == 0 {
      StoreKeeps(m', segs[1..], Key(segs[0]));
    } else {
      forall j | i - 1 < j < |segs[1..]| ensures Key(segs[1..][j]) != Key(segs[1..][i - 1]) {
        assert segs[1..][j] == segs[j + 1];
      }
      StoreLastWins(m', segs[1..], i - 1);
    }
  }

  /** A key no argument carries keeps its value in `m`. */
  lemma {:induction false} StoreKeeps(m: map<string, string>, segs: seq<string>, k: string)
    requires k in m
    requires forall j :: 0 <= j < |segs| ==> Key(segs[j]) != k
    ensures k in Store(m, segs) && Store(m, segs)[k] == m[k]
    decreases |segs|
  {
    if segs != [] {
      StoreKeeps(m[Key(segs[0]) := Value(segs[0])], segs[1..], k);
    }
  }

  /** The decoded map holds exactly the keys of the arguments. */
  lemma QueryMapKeys(qs: string, k: string)
    ensures k in QueryMap(qs) <==> exists i :: 0 <= i < |Segments(qs)| && Key(Segments(qs)[i]) == k
  {
    var empty: map<string, string> := map[];
    StoreHasKey(empty, Segments(qs), k);
    assert k !in empty;
    assert QueryMap(qs) == Store(empty, Segments(qs));
  }

  /** Each key maps to the value of its last occurrence. */
  lemma QueryMapLastWins(qs: string, i: nat)
    requires i < |Segments(qs)|
    requires forall j :: i < j < |Segments(qs)| ==> Key(Segments(qs)[j]) != Key(Segments(qs)[i])
    ensures var arg := Segments(qs)[i]; Key(arg) in QueryMap(qs) && QueryMap(qs)[Key(arg)] == Value(arg)
  {
    StoreLastWins(map[], Segments(qs), i);
  }

  /** An empty query string decodes to an empty map. */
  lemma QueryMapEmpty()
    ensures QueryMap("") == map[]
  {
  }

  /** The text with every separator removed. */
  function Unseparated(s: string): (r: string)
    ensures forall j :: 0 <= j < |r| ==> r[j] !in Separators
  {
    if s == [] then []
    else if s[0] in Separators then Unseparated(s[1..])
    else [s[0]] + Unseparated(s[1..])
  }

  lemma {:induction false} UnseparatedAppend(a: string, b: string)
    ensures Unseparated(a + b) == Unseparated(a) + Unseparated(b)
    decreases |a|
  {
    if a != [] {
      assert (a + b)[0] == a[0] && (a + b)[1..] == a[1..] + b;
      UnseparatedAppend(a[1..], b);
      if a[0] !in Separators {
        assert Unseparated(a + b) == [a[0]] + (Unseparated(a[1..]) + Unseparated(b));
      }
    } else {
      assert a + b == b;
    }
  }

  lemma {:induction false} UnseparatedPlain(s: string)
    requires forall j :: 0 <= j < |s| ==> s[j] !in Separators
    ensures Unseparated(s) == s
    decreases |s|
  {
    if s != [] {
      UnseparatedPlain(s[1..]);
    }
  }

  /** The arguments laid end to end. */
  function Concat(segs: seq<string>): string {
    if segs == [] then [] else segs[0] + Concat(segs[1..])
  }

  /** No character of the query string is lost or invented: the arguments,
      laid end to end, are the query string without its separators. */
  lemma {:induction false} SegmentsCover(qs: string)
    ensures Concat(Segments(qs)) == Unseparated(qs)
    decreases |qs|
  {
    if qs != [] {
      match FindFirstOf(qs, Separators)
      case NPos =>
        UnseparatedPlain(qs);
        assert Segments(qs) == [qs];
        assert Concat([qs]) == qs + Concat([]);
      case At(d) =>
        var segs := Segments(qs);
        assert segs == [qs[..d]] + Segments(qs[d + 1..]);
        assert segs[1..] == Segments(qs[d + 1..]);
        SegmentsCover(qs[d + 1..]);
        UnseparatedAround(qs, d);
    }
  }

  /** Removing the separators from a text whose first separator is at `d`
      keeps the text before `d` and drops the one at `d`. */
  lemma UnseparatedAround(qs: string, d: nat)
    requires d < |qs| && qs[d] in Separators
    requires forall j :: 0 <= j < d ==> qs[j] !in Separators
    ensures Unseparated(qs) == qs[..d] + Unseparated(qs[d + 1..])
  {
    assert qs == qs[..d] + qs[d..];
    UnseparatedAppend(qs[..d], qs[d..]);
    assert qs[d..][0] == qs[d] && qs[d..][1..] == qs[d + 1..];
    assert forall j :: 0 <= j < d ==> qs[..d][j] !in Separators;
    UnseparatedPlain(qs[..d]);
  }

  /** Every separator cuts alike: an argument free of separators, followed
      by any of `&`, `;` or `?`, is the first argument, and the loop goes on
      with the text after that separator. */
  lemma SegmentsCons(a: string, c: char, b: string)
    requires forall j :: 0 <= j < |a| ==> a[j] !in Separators
    requires c in Separators
    ensures Segments(a + [c] + b) == [a] + Segments(b)
  {
    var qs := a + [c] + b;
    forall j | 0 <= j < |a| ensures qs[j] !in Separators {
      assert qs[j] == a[j];
    }
    FindFirstOfAt(qs, Separators, |a|);
    assert qs[..|a|] == a;
    assert qs[|a| + 1..] == b;
  }

  /** The arguments joined with `&`. */
  function Joined(segs: seq<string>): string
    requires segs != []
  {
    if |segs| == 1 then segs[0] else segs[0] + ['&'] + Joined(segs[1..])
  }

  /** Joining arguments that hold no separator with `&` and decoding gives
      them back, provided the last one is non-empty (an empty last argument
      leaves a trailing separator, which adds none). */
  lemma {:induction false} SegmentsOfJoined(segs: seq<string>)
    requires segs != [] && segs[|segs| - 1] != []
    requires forall i :: 0 <= i < |segs| ==> forall j :: 0 <= j < |segs[i]| ==> segs[i][j] !in Separators
    ensures Segments(Joined(segs)) == segs
    decreases |segs|
  {
    var qs := Joined(segs);
    if |segs| == 1 {
      assert FindFirstOf(qs, Separators) == NPos;
    } else {
      var tail := segs[1..];
      assert qs == segs[0] + ['&'] + Joined(tail);
      forall j | 0 <= j < |segs[0]| ensures qs[j] !in Separators {
        assert qs[j] == segs[0][j];
      }
      FindFirstOfAt(qs, Separators, |segs[0]|);
      assert qs[..|segs[0]|] == segs[0];
      assert qs[|segs[0]| + 1..] == Joined(tail);
      SegmentsOfJoined(tail);
    }
  }

  /** An argument `key=value` whose key holds no `=` splits back into its
      key and value. */
  lemma KeyValueOfPair(key: string, value: string)
    requires '=' !in key
    ensures Key(key + ['='] + value) == key && Value(key + ['='] + value) == value
  {
    var arg := key + ['='] + value;
    assert arg[..|key|] == key;
    FindAt(arg, '=', |key|);
    assert arg[|key| + 1..] == value;
  }

  /** Neither a separator nor `=` occurs in `s`. */
  predicate Plain(s: string) {
    forall j :: 0 <= j < |s| ==> s[j] !in Separators && s[j] != '='
  }

  /** `k1=v1&k2=v2` decodes to the two pairs (the second wins when the keys
      are equal). */
  lemma QueryMapOfTwo(k1: string, v1: string, k2: string, v2: string)
    requires Plain(k1) && Plain(v1) && Plain(k2) && Plain(v2)
    ensures QueryMap(k1 + ['='] + v1 + ['&'] + k2 + ['='] + v2) == map[k1 := v1, k2 := v2]
  {
    var a1 := k1 + ['='] + v1;
    var a2 := k2 + ['='] + v2;
    forall j | 0 <= j < |a1| ensures a1[j] !in Separators {
      if j < |k1| { assert a1[j] == k1[j]; } else if j > |k1| { assert a1[j] == v1[j - |k1| - 1]; }
    }
    forall j | 0 <= j < |a2| ensures a2[j] !in Separators {
      if j < |k2| { assert a2[j] == k2[j]; } else if j > |k2| { assert a2[j] == v2[j - |k2| - 1]; }
    }
    var segs := [a1, a2];
    assert Joined(segs) == a1 + ['&'] + a2;
    assert k1 + ['='] + v1 + ['&'] + k2 + ['='] + v2 == a1 + ['&'] + a2;
    SegmentsOfJoined(segs);
    KeyValueOfPair(k1, v1);
    KeyValueOfPair(k2, v2);
    assert segs[1..] == [a2];
    assert Store(map[], segs) == Store(map[k1 := v1], [a2]);
  }

  /** An argument without `=` is a key with an empty value. */
  lemma KeyWithoutValue(arg: string)
    requires '=' !in arg
    ensures Key(arg) == arg && Value(arg) == ""
  {
  }

  /** The text after the first argument: empty when it was the last one. */
  function Remainder(qs: string): string {
    match FindFirstOf(qs, Separators)
    case NPos => []
    case At(d) => qs[d + 1..]
  }

  /** One turn of the loop stores the first argument and continues on the
      remainder. */
  lemma StoreStep(m: map<string, string>, qs: string)
    requires qs != []
    ensures var arg := Substr(qs, 0, FindFirstOf(qs, Separators));
      Store(m, Segments(qs)) == Store(m[Key(arg) := Value(arg)], Segments(Remainder(qs)))
  {
    var segs := Segments(qs);
    assert segs[1..] == Segments(Remainder(qs));
  }

  /** `parse_query`, step by step: `query_substring` shrinks argument by
      argument while the map is updated in place. */
  method Run(uri: string) returns (r: QueryStage)
    ensures r == Parse(uri)
  {
    var hashPos := Find(uri, '#');
    var querySubstring := Substr(uri, 0, hashPos);
    var queryString := querySubstring;
    var query: map<string, string> := map[];
    while querySubstring != []
      invariant Store(query, Segments(querySubstring)) == QueryMap(queryString)
      decreases |querySubstring|
    {
      var delimPos := FindFirstOf(querySubstring, Separators);
      var arg := Substr(querySubstring, 0, delimPos);
      StoreStep(query, querySubstring);
      ghost var before := query;
      var equalsPos := Find(arg, '=');
      if equalsPos.NPos? {
        query := query[arg := ""];
      } else {
        query := query[arg[..equalsPos.index] := arg[equalsPos.index + 1..]];
      }
      assert query == before[Key(arg) := Value(arg)];
      if delimPos.NPos? {
        querySubstring := [];
      } else {
        querySubstring := querySubstring[delimPos.index + 1..];
      }
    }
    return QueryStage(query, queryString, None, Suffix(uri, WrapAdd(hashPos, 1)));
  }
}
