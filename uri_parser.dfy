/** `parse_uri`: the scheme, authority, path, query and fragment stages run
    one after another on what the previous one left, and the first stage
    that reports an error decides the result. */
module UriParser {
  import opened Text
  import opened UriTypes
  import StringToLong
  import SchemeParser
  import AuthorityParser
  import PathParser
  import QueryParser
  import FragmentParser

  /** The decomposition of `input`. */
  function ParseUri(input: string): (u: Uri)
    ensures u.error != None ==> u == ErrorUri(u.error)
    ensures u.error == None ==> forall i :: 0 <= i < |u.scheme| ==> !IsUpper(u.scheme[i])
    ensures u.error == None ==> '#' !in u.path && '?' !in u.path && '#' !in u.queryString
  {
    var s := SchemeParser.Parse(input);
    if s.error != None then ErrorUri(s.error)
    else
      var a := AuthorityParser.Parse(s.rest);
      if a.error != None then ErrorUri(a.error)
      else
        var p := PathParser.Parse(a.rest);
        if p.error != None then ErrorUri(p.error)
        else
          var q := QueryParser.Parse(p.rest);
          if q.error != None then ErrorUri(q.error)
          else
            var f := FragmentParser.Parse(q.rest);
            if f.error != None then ErrorUri(f.error)
            else Uri(None, s.value, a.value, p.value, q.query, q.queryString, f.value)
  }

  /** `parse_uri`, with each stage's result unpacked into locals as
      `std::tie` does. */
  method Run(input: string) returns (u: Uri)
    ensures u == ParseUri(input)
  {
    var scheme, error, uri;
    var schemeStage := SchemeParser.Run(input);
    scheme, error, uri := schemeStage.value, schemeStage.error, schemeStage.rest;
    if error != None {
      return ErrorUri(error);
    }

    var authorityStage := AuthorityParser.Run(uri);
    var authority;
    authority, error, uri := authorityStage.value, authorityStage.error, authorityStage.rest;
    if error != None {
      return ErrorUri(error);
    }

    var pathStage := PathParser.Parse(uri);
    var path;
    path, error, uri := pathStage.value, pathStage.error, pathStage.rest;
    if error != None {
      return ErrorUri(error);
    }

    var queryStage := QueryParser.Run(uri);
    var query, queryString;
    query, queryString, error, uri := queryStage.query, queryStage.queryString, queryStage.error, queryStage.rest;
    if error != None {
      return ErrorUri(error);
    }

    var fragmentStage := FragmentParser.Parse(uri);
    var fragment;
    fragment, error, uri := fragmentStage.value, fragmentStage.error, fragmentStage.rest;
    if error != None {
      return ErrorUri(error);
    }

    return Uri(None, scheme, authority, path, query, queryString, fragment);
  }

  /** Only the scheme and authority stages can fail: the error is the
      scheme stage's, or else the authority stage's. */
  lemma ErrorOfFirstStages(input: string)
    ensures var s := SchemeParser.Parse(input);
      ParseUri(input).error == if s.error != None then s.error else AuthorityParser.Parse(s.rest).error
  {
  }

  /** The scheme error: reported exactly when the input has no `:` or the
      text before its first `:` is not a valid scheme. */
  lemma SchemeErrorIff(input: string)
    ensures ParseUri(input).error == InvalidScheme <==>
      ':' !in input || !SchemeParser.ValidScheme(input[..Find(input, ':').index])
  {
    var s := SchemeParser.Parse(input);
    ErrorOfFirstStages(input);
    SchemeParser.ParseFails(input);
    if ':' in input {
      var pos := Find(input, ':').index;
      assert input[..pos] == Substr(input, 0, At(pos));
    }
  }

  /** The port error: reported exactly when the scheme is valid, an
      authority follows it, and the text after the first `:` of its host
      part is not consumed entirely by `strtol`. */
  lemma PortErrorIff(input: string)
    ensures var s := SchemeParser.Parse(input);
      ParseUri(input).error == InvalidPort <==>
        s.error == None && AuthorityParser.HasAuthority(s.rest)
        && AuthorityParser.PortRejected(AuthorityParser.HostPort(AuthorityParser.Block(s.rest)))
  {
    var s := SchemeParser.Parse(input);
    ErrorOfFirstStages(input);
    SchemeParser.ParseFails(input);
    if AuthorityParser.HasAuthority(s.rest) {
      AuthorityParser.PortError(s.rest);
    } else {
      AuthorityParser.NoAuthority(s.rest);
    }
  }

  /** On success the fields are the stage outputs, each stage reading what
      the previous one left, and the fragment is the rest the query stage
      handed back. */
  lemma SuccessFields(input: string)
    requires ParseUri(input).error == None
    ensures var s := SchemeParser.Parse(input);
      var a := AuthorityParser.Parse(s.rest);
      var p := PathParser.Parse(a.rest);
      var q := QueryParser.Parse(p.rest);
      && s.error == None && a.error == None
      && ParseUri(input) == Uri(None, s.value, a.value, p.value, q.query, q.queryString, q.rest)
  {
  }

  /** What a successful result looks like: the scheme is the lower-cased text
      before the first `:`, the path holds neither `#` nor `?`, the query
      string holds no `#` and the map is its decoding. The fragment is the
      text after the first `#` past the path; when there is none it repeats
      the query string. */
  lemma SuccessShape(input: string)
    requires ParseUri(input).error == None
    ensures ':' in input
    ensures var u := ParseUri(input); var k := Find(input, ':').index;
      && SchemeParser.ValidScheme(input[..k])
      && u.scheme == Lowered(input[..k])
      && (forall i :: 0 <= i < |u.scheme| ==> !IsUpper(u.scheme[i]))
      && '#' !in u.path && '?' !in u.path
      && '#' !in u.queryString
      && u.query == QueryParser.QueryMap(u.queryString)
    ensures var u := ParseUri(input);
      var t := PathParser.Parse(AuthorityParser.Parse(SchemeParser.Parse(input).rest).rest).rest;
      if '#' in t then t == u.queryString + ['#'] + u.fragment
      else u.queryString == t && u.fragment == t
  {
    var s := SchemeParser.Parse(input);
    SchemeParser.ParseFails(input);
    SchemeParser.ParseSucceeds(input);
    var k := Find(input, ':').index;
    assert input[..k] == Substr(input, 0, At(k));
    var a := AuthorityParser.Parse(s.rest);
    PathParser.ParseSplits(a.rest);
    QueryParser.ParseSplits(PathParser.Parse(a.rest).rest);
  }

  /** Without `//` after the scheme there is no authority, and without `#`
      or `?` the whole rest is the path: `news:test_path` has the path
      `test_path`. */
  lemma PathOnly(scheme: string, path: string)
    requires SchemeParser.ValidScheme(scheme)
    requires !AuthorityParser.HasAuthority(path) && '#' !in path && '?' !in path
    ensures ParseUri(scheme + [':'] + path) ==
      Uri(None, Lowered(scheme), DefaultAuthority, path, map[], "", "")
  {
    SchemeParser.ParseComposed(scheme, path);
    PathParser.ParseSplits(path);
  }

  lemma NewsExample()
    ensures ParseUri("news:test_path").path == "test_path"
    ensures ParseUri("news:test_path").authority == DefaultAuthority
  {
    assert "news:test_path" == "news" + [':'] + "test_path";
    PathOnly("news", "test_path");
  }

  /** A URI written out from its parts reads back into them: scheme, `://`,
      userinfo, `@`, host, `:`, port digits, a path starting with `/`, `?`,
      a query string and `#` with a fragment. */
  lemma ParseComposed(scheme: string, userinfo: string, host: string, digits: string,
                      path: string, qs: string, fragment: string)
    requires SchemeParser.ValidScheme(scheme)
    requires '/' !in userinfo && '@' !in userinfo
    requires host != [] && host[0] != '[' && '/' !in host && '@' !in host && ':' !in host
    requires digits != [] && StringToLong.AllDigits(digits)
    requires path != [] && path[0] == '/' && '#' !in path && '?' !in path
    requires '#' !in qs
    ensures var block := userinfo + ['@'] + host + [':'] + digits;
      ParseUri(scheme + [':'] + ['/', '/'] + block + path + ['?'] + qs + ['#'] + fragment) ==
        Uri(None, Lowered(scheme), Authority(block, userinfo, host, StringToLong.DigitsValue(digits)),
            path, QueryParser.QueryMap(qs), qs, fragment)
  {
    var block := userinfo + ['@'] + host + [':'] + digits;
    var afterPath := qs + ['#'] + fragment;
    var afterAuthority := path + ['?'] + afterPath;
    var rest := ['/', '/'] + block + afterAuthority;
    assert scheme + [':'] + ['/', '/'] + block + path + ['?'] + qs + ['#'] + fragment == scheme + [':'] + rest;
    SchemeParser.ParseComposed(scheme, rest);
    AuthorityParser.ParseComposed(userinfo, host, digits, afterAuthority);
    PathParser.ParseComposed(path, '?', afterPath);
    QueryParser.ParseComposed(qs, fragment);
  }

  /** `scheme://host:port/path` without userinfo, query or fragment (as in
      `telnet://192.0.2.16:80/`): the host, the port's value, the path, and
      an empty query and fragment. */
  lemma ServerPath(scheme: string, host: string, digits: string, path: string)
    requires SchemeParser.ValidScheme(scheme)
    requires host != [] && host[0] != '[' && '/' !in host && '@' !in host && ':' !in host
    requires digits != [] && StringToLong.AllDigits(digits)
    requires path != [] && path[0] == '/' && '#' !in path && '?' !in path
    ensures var block := host + [':'] + digits;
      ParseUri(scheme + [':'] + ['/', '/'] + block + path) ==
        Uri(None, Lowered(scheme), Authority(block, "", host, StringToLong.DigitsValue(digits)), path, map[], "", "")
  {
    var block := host + [':'] + digits;
    var rest := ['/', '/'] + block + path;
    assert scheme + [':'] + ['/', '/'] + block + path == scheme + [':'] + rest;
    SchemeParser.ParseComposed(scheme, rest);
    AuthorityParser.ParseComposedHostPort(host, digits, path);
    PathParser.ParseSplits(path);
    assert PathParser.Parse(path) == Stage(path, None, "");
    QueryParser.QueryMapEmpty();
    assert QueryParser.Parse("") == QueryStage(map[], "", None, "");
  }

  /** The same with userinfo, `scheme://userinfo@host:port/path` (as in
      `news://user@example.com:5432/test/path`). */
  lemma UserServerPath(scheme: string, userinfo: string, host: string, digits: string, path: string)
    requires SchemeParser.ValidScheme(scheme)
    requires '/' !in userinfo && '@' !in userinfo
    requires host != [] && host[0] != '[' && '/' !in host && '@' !in host && ':' !in host
    requires digits != [] && StringToLong.AllDigits(digits)
    requires path != [] && path[0] == '/' && '#' !in path && '?' !in path
    ensures var block := userinfo + ['@'] + host + [':'] + digits;
      ParseUri(scheme + [':'] + ['/', '/'] + block + path) ==
        Uri(None, Lowered(scheme), Authority(block, userinfo, host, StringToLong.DigitsValue(digits)), path, map[], "", "")
  {
    var block := userinfo + ['@'] + host + [':'] + digits;
    var rest := ['/', '/'] + block + path;
    assert scheme + [':'] + ['/', '/'] + block + path == scheme + [':'] + rest;
    SchemeParser.ParseComposed(scheme, rest);
    AuthorityParser.ParseComposed(userinfo, host, digits, path);
    PathParser.ParseSplits(path);
    assert PathParser.Parse(path) == Stage(path, None, "");
    QueryParser.QueryMapEmpty();
    assert QueryParser.Parse("") == QueryStage(map[], "", None, "");
  }

  /** A full URI with a query string but no `#`: by the `npos + 1` wrap the
      fragment repeats the query string. */
  lemma ParseComposedNoFragment(scheme: string, userinfo: string, host: string, digits: string,
                                path: string, qs: string)
    requires SchemeParser.ValidScheme(scheme)
    requires '/' !in userinfo && '@' !in userinfo
    requires host != [] && host[0] != '[' && '/' !in host && '@' !in host && ':' !in host
    requires digits != [] && StringToLong.AllDigits(digits)
    requires path != [] && path[0] == '/' && '#' !in path && '?' !in path
    requires '#' !in qs
    ensures var block := userinfo + ['@'] + host + [':'] + digits;
      ParseUri(scheme + [':'] + ['/', '/'] + block + path + ['?'] + qs) ==
        Uri(None, Lowered(scheme), Authority(block, userinfo, host, StringToLong.DigitsValue(digits)),
            path, QueryParser.QueryMap(qs), qs, qs)
  {
    var block := userinfo + ['@'] + host + [':'] + digits;
    var afterAuthority := path + ['?'] + qs;
    var rest := ['/', '/'] + block + afterAuthority;
    assert scheme + [':'] + ['/', '/'] + block + path + ['?'] + qs == scheme + [':'] + rest;
    SchemeParser.ParseComposed(scheme, rest);
    AuthorityParser.ParseComposed(userinfo, host, digits, afterAuthority);
    PathParser.ParseComposed(path, '?', qs);
    QueryParser.ParseSplits(qs);
    assert QueryParser.Parse(qs) == QueryStage(QueryParser.QueryMap(qs), qs, None, qs);
  }

  /** `scheme:///path` (as in `news:///test/path`): the empty authority gives
      the default one, and the path is everything after `//`. */
  lemma EmptyAuthority(scheme: string, path: string)
    requires SchemeParser.ValidScheme(scheme)
    requires path != [] && path[0] == '/' && '#' !in path && '?' !in path
    ensures ParseUri(scheme + [':'] + ['/', '/'] + path) ==
      Uri(None, Lowered(scheme), DefaultAuthority, path, map[], "", "")
  {
    var rest := ['/', '/'] + path;
    assert scheme + [':'] + ['/', '/'] + path == scheme + [':'] + rest;
    SchemeParser.ParseComposed(scheme, rest);
    AuthorityParser.ParseEmptyAuthority(path);
    PathParser.ParseSplits(path);
    assert PathParser.Parse(path) == Stage(path, None, "");
    QueryParser.QueryMapEmpty();
    assert QueryParser.Parse("") == QueryStage(map[], "", None, "");
  }

  /** `scheme://block` with no path after the block (as in
      `news://user@example.com:5432`): the authority is what the authority
      stage derives from the block, and by the `npos + 2` wrap the path is
      the block again after a `/`. */
  lemma AuthorityOnly(scheme: string, block: string)
    requires SchemeParser.ValidScheme(scheme)
    requires '/' !in block && '#' !in block && '?' !in block
    requires !AuthorityParser.PortRejected(AuthorityParser.HostPort(block))
    ensures var u := ParseUri(scheme + [':'] + ['/', '/'] + block);
      && u.error == None
      && u.authority == AuthorityParser.Parse(['/', '/'] + block).value
      && u.authority.authority == block && u.authority.userinfo == AuthorityParser.Userinfo(block)
      && u.path == ['/'] + block
      && u.query == map[] && u.queryString == "" && u.fragment == ""
  {
    var rest := ['/', '/'] + block;
    assert scheme + [':'] + ['/', '/'] + block == scheme + [':'] + rest;
    SchemeParser.ParseComposed(scheme, rest);
    AuthorityParser.BlockWithoutPath(block);
    AuthorityParser.PortError(rest);
    var path := ['/'] + block;
    assert '#' !in path && '?' !in path;
    PathParser.ParseSplits(path);
    assert PathParser.Parse(path) == Stage(path, None, "");
    QueryParser.QueryMapEmpty();
    assert QueryParser.Parse("") == QueryStage(map[], "", None, "");
  }

  /** A URI that ends with its host: the `npos + 2` wrap in the authority
      stage hands the text from index 1 on, so the host reappears as the
      path after a `/` (`news://example.com` has the path `/example.com`). */
  lemma HostOnly(scheme: string, host: string)
    requires SchemeParser.ValidScheme(scheme)
    requires host != [] && host[0] != '['
    requires '/' !in host && '@' !in host && ':' !in host && '#' !in host && '?' !in host
    ensures var u := ParseUri(scheme + [':'] + ['/', '/'] + host);
      && u.error == None
      && u.authority == Authority(host, "", host, 0)
      && u.path == ['/'] + host
      && u.query == map[] && u.queryString == "" && u.fragment == ""
  {
    var rest := ['/', '/'] + host;
    assert scheme + [':'] + ['/', '/'] + host == scheme + [':'] + rest;
    SchemeParser.ParseComposed(scheme, rest);
    AuthorityParser.ParseHostOnly(host);
    var path := ['/'] + host;
    assert '#' !in path && '?' !in path;
    PathParser.ParseSplits(path);
    assert PathParser.Parse(path) == Stage(path, None, "");
    QueryParser.QueryMapEmpty();
    assert QueryParser.Parse("") == QueryStage(map[], "", None, "");
  }
}
