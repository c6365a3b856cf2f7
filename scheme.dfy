/** The scheme stage: the text before the first `:` must be a non-empty run
    of ASCII letters, digits, `+`, `.` and `-`; it is returned lower-cased,
    with the input after the `:`. */
module SchemeParser {
  import opened Text
  import opened UriTypes

  predicate IsSchemeChar(c: char) {
    IsAlnum(c) || c == '+' || c == '.' || c == '-'
  }

  /** `std::find_if_not` over `IsSchemeChar`: the index of the first character
      that is not allowed in a scheme, or `|s|`. */
  function FirstNonSchemeChar(s: string): (i: nat)
    ensures i <= |s|
    ensures forall k :: 0 <= k < i ==> IsSchemeChar(s[k])
    ensures i < |s| ==> !IsSchemeChar(s[i])
  {
    if s == [] || !IsSchemeChar(s[0]) then 0 else 1 + FirstNonSchemeChar(s[1..])
  }

  /** `valid_scheme`. */
  function ValidScheme(s: string): (ok: bool)
    ensures ok <==> s != [] && forall k :: 0 <= k < |s| ==> IsSchemeChar(s[k])
  {
    if s == [] then false else FirstNonSchemeChar(s) == |s|
  }

  /** `parse_scheme`. */
  function Parse(uri: string): (r: Stage<string>)
    ensures r.error == None || r == Stage("", InvalidScheme, uri)
    ensures r.error == None ==> |r.value| + 1 + |r.rest| == |uri| && ValidScheme(uri[..|r.value|])
  {
    match Find(uri, ':')
    case NPos => Stage("", InvalidScheme, uri)
    case At(pos) =>
      var scheme := Substr(uri, 0, At(pos));
      if !ValidScheme(scheme) then Stage("", InvalidScheme, uri)
      else Stage(Lowered(scheme), None, Suffix(uri, WrapAdd(At(pos), 1)))
  }

  /** The stage fails exactly when there is no `:`, or the text before the
      first `:` is empty or holds a character outside the scheme alphabet;
      on failure the scheme is empty and the input is returned unchanged. */
  lemma ParseFails(uri: string)
    ensures var r := Parse(uri);
      r.error != None <==> (':' !in uri || exists k :: 0 <= k < |uri| && ':' !in uri[..k] && uri[k] == ':' && !ValidScheme(uri[..k]))
    ensures var r := Parse(uri); r.error != None ==> r == Stage("", InvalidScheme, uri)
  {
    match Find(uri, ':')
    case NPos =>
    case At(pos) =>
      assert uri[..pos] == Substr(uri, 0, At(pos));
      forall k | 0 <= k < |uri| && ':' !in uri[..k] && uri[k] == ':' ensures k == pos {
        FindAt(uri, ':', k);
      }
  }

  /** On success the scheme is the lower-cased text before the first `:`
      (same length, no upper-case letter), and that text, the `:` and the
      rest make up the input. */
  lemma ParseSucceeds(uri: string)
    requires Parse(uri).error == None
    ensures var r := Parse(uri);
      exists k :: 0 <= k < |uri| && uri[k] == ':' && ':' !in uri[..k]
        && ValidScheme(uri[..k])
        && r.value == Lowered(uri[..k])
        && uri == uri[..k] + [':'] + r.rest
    ensures forall i :: 0 <= i < |Parse(uri).value| ==> !IsUpper(Parse(uri).value[i])
  {
    var pos := Find(uri, ':').index;
    var scheme := uri[..pos];
    assert scheme == Substr(uri, 0, At(pos));
    assert Parse(uri) == Stage(Lowered(scheme), None, uri[pos + 1..]);
    assert uri == scheme + [':'] + uri[pos + 1..];
    assert ':' !in scheme;
    assert 0 <= pos < |uri| && uri[pos] == ':' && ValidScheme(uri[..pos]);
    var lowered := Lowered(scheme);
    assert forall i :: 0 <= i < |lowered| ==> !IsUpper(lowered[i]) by {
      forall i | 0 <= i < |lowered| ensures !IsUpper(lowered[i]) {
        assert lowered[i] == ToLower(scheme[i]);
      }
    }
  }

  /** Writing a valid scheme, a `:` and any text, then parsing, gives back the
      lower-cased scheme and exactly that text. */
  lemma ParseComposed(scheme: string, rest: string)
    requires ValidScheme(scheme)
    ensures Parse(scheme + [':'] + rest) == Stage(Lowered(scheme), None, rest)
  {
    var uri := scheme + [':'] + rest;
    assert uri[|scheme|] == ':';
    assert ':' !in uri[..|scheme|] by { assert uri[..|scheme|] == scheme; }
    assert Find(uri, ':') == At(|scheme|);
    assert Substr(uri, 0, At(|scheme|)) == scheme;
    assert Suffix(uri, |scheme| + 1) == rest;
  }

  /** Two inputs that differ only in the case of their scheme letters parse
      to the same scheme. */
  lemma ParseIgnoresCase(a: string, b: string, rest: string)
    requires ValidScheme(a) && |a| == |b|
    requires forall i :: 0 <= i < |a| ==> ToLower(a[i]) == ToLower(b[i]) && IsSchemeChar(b[i])
    ensures Parse(a + [':'] + rest) == Parse(b + [':'] + rest)
  {
    assert ValidScheme(b);
    assert Lowered(a) == Lowered(b);
    ParseComposed(a, rest);
    ParseComposed(b, rest);
  }

  /** `std::transform(..., std::tolower)` over the scheme's characters. */
  method LowerInPlace(a: array<char>)
    modifies a
    ensures a[..] == Lowered(old(a[..]))
  {
    var i := 0;
    while i < a.Length
      invariant 0 <= i <= a.Length
      invariant forall k :: 0 <= k < i ==> a[k] == ToLower(old(a[k]))
      invariant forall k :: i <= k < a.Length ==> a[k] == old(a[k])
    {
      a[i] := ToLower(a[i]);
      i := i + 1;
    }
  }

  /** `parse_scheme`, step by step: find the `:`, validate, copy the scheme
      into its own buffer and lower-case it there. */
  method Run(uri: string) returns (r: Stage<string>)
    ensures r == Parse(uri)
  {
    var pos := Find(uri, ':');
    if pos == NPos {
      return Stage("", InvalidScheme, uri);
    }
    var scheme := Substr(uri, 0, pos);
    if !ValidScheme(scheme) {
      return Stage("", InvalidScheme, uri);
    }
    var schemeString := new char[|scheme|](i requires 0 <= i < |scheme| => scheme[i]);
    assert schemeString[..] == scheme;
    LowerInPlace(schemeString);
    return Stage(schemeString[..], None, Suffix(uri, WrapAdd(pos, 1)));
  }
}
