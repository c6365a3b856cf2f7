/** The authority stage. A leading `//` opens an authority block that runs to
    the next `/`; within it, the text before the first `@` is the userinfo,
    and a `:` in the rest (unless that rest starts with `[`) introduces a
    port that `strtol` must consume entirely. */
module AuthorityParser {
  import opened Text
  import opened StringToLong
  import opened UriTypes

  /** `has_authority`: only the first two characters are inspected. */
  predicate HasAuthority(uri: string) {
    |uri| >= 2 && uri[0] == '/' && uri[1] == '/'
  }

  /** Where the block ends: the first `/` after the leading `//`, as an index
      into `uri[2..]`. */
  function BlockEnd(uri: string): Pos
    requires HasAuthority(uri)
  {
    Find(uri[2..], '/')
  }

  /** The raw authority block: from index 2 up to the next `/` or the end. */
  function Block(uri: string): (block: string)
    requires HasAuthority(uri)
    ensures '/' !in block
    ensures 2 + |block| <= |uri| && block == uri[2..2 + |block|]
    ensures 2 + |block| < |uri| ==> uri[2 + |block|] == '/'
  {
    var block := Substr(uri, 2, BlockEnd(uri));
    assert block == uri[2..][..|block|];
    block
  }

  /** The userinfo: the text before the first `@`, or empty. */
  function Userinfo(block: string): (u: string)
    ensures '@' !in u
    ensures '@' !in block ==> u == ""
    ensures '@' in block ==> |u| < |block| && block[|u|] == '@' && u == block[..|u|]
  {
    match Find(block, '@')
    case NPos => ""
    case At(i) => block[..i]
  }

  /** The host-and-port text: what follows the first `@`, or the whole block. */
  function HostPort(block: string): (hp: string)
    ensures '@' in block ==> block == Userinfo(block) + ['@'] + hp
    ensures '@' !in block ==> hp == block
  {
    match Find(block, '@')
    case NPos => block
    case At(i) => block[i + 1..]
  }

  /** The port branch runs when the host-and-port text is non-empty, does not
      open an IPv6 literal with `[`, and holds a `:`. */
  predicate HasPort(hp: string) {
    hp != [] && hp[0] != '[' && Find(hp, ':').At?
  }

  /** The port branch runs and `strtol` stops before the end of the text
      after the first `:`. */
  predicate PortRejected(hp: string) {
    HasPort(hp) && Strtol(hp[Find(hp, ':').index + 1..]).consumed != |hp| - Find(hp, ':').index - 1
  }

  /** The rest after the block: it starts at the `/` that ends the block;
      when there is none, `npos + 2` wraps to 1 and the rest is the input
      from index 1. */
  function Rest(uri: string): (rem: string)
    requires HasAuthority(uri)
    ensures '/' in uri[2..] ==> rem == uri[2 + |Block(uri)|..] && rem[0] == '/'
    ensures '/' !in uri[2..] ==> rem == uri[1..]
  {
    var end := BlockEnd(uri);
    assert end.At? ==> uri[2..][..end.index] == uri[2..2 + end.index];
    Suffix(uri, WrapAdd(end, 2))
  }

  /** The host and port the code derives from a block, and whether the port
      text was accepted. */
  datatype HostAndPort = HostAndPort(host: string, port: int, portOk: bool)

  /** The port branch: the text after the first `:` goes to `strtol`; the
      host is the text before that `:`, and is never set when the port text
      is rejected. */
  function SplitAtColon(hp: string): (r: HostAndPort)
    requires Find(hp, ':').At?
    ensures r.host <= hp && ':' !in r.host
    ensures !r.portOk ==> r.host == ""
    ensures r.portOk ==> |r.host| < |hp| && hp[|r.host|] == ':'
  {
    var colon := Find(hp, ':').index;
    var conv := Strtol(hp[colon + 1..]);
    if conv.consumed != |hp| - (colon + 1) then HostAndPort("", conv.value, false)
    else HostAndPort(hp[..colon], conv.value, true)
  }

  /** `SplitAtColon` on a given colon index and conversion. */
  lemma SplitAtColonIs(hp: string, colon: nat, conv: Conversion)
    requires Find(hp, ':') == At(colon) && conv == Strtol(hp[colon + 1..])
    ensures SplitAtColon(hp) ==
      if conv.consumed != |hp| - (colon + 1) then HostAndPort("", conv.value, false)
      else HostAndPort(hp[..colon], conv.value, true)
  {
  }

  /** Lines after the userinfo step, on the host-and-port text `hp` and the
      position `pos` left by the `@` search. */
  function SplitHostPortAt(hp: string, pos: Pos): (r: HostAndPort)
    ensures r.host <= hp
    ensures !r.portOk <==> PortRejected(hp)
    ensures !r.portOk ==> r.host == ""
    ensures !HasPort(hp) ==> r.port == 0
  {
    if HasPort(hp) then SplitAtColon(hp)
    else
      // The host is cut at the last position the code searched for: the
      // `:` search when it ran, otherwise the `@` search over the block.
      var last := if hp != [] && hp[0] != '[' then Find(hp, ':') else pos;
      HostAndPort(Substr(hp, 0, last), 0, true)
  }

  /** The host and port of a block: the host is always a prefix of the text
      after the `@`, and the port text is rejected exactly as `PortRejected`
      says. */
  function SplitHostPort(block: string): (r: HostAndPort)
    ensures r.host <= HostPort(block)
    ensures !r.portOk <==> PortRejected(HostPort(block))
  {
    SplitHostPortAt(HostPort(block), Find(block, '@'))
  }

  /** The three ways `SplitHostPort` can go, one lemma each. */
  lemma SplitWithColon(block: string)
    requires HasPort(HostPort(block))
    ensures SplitHostPort(block) == SplitAtColon(HostPort(block))
  {
  }

  lemma SplitWithoutColon(block: string)
    requires var hp := HostPort(block); hp != [] && hp[0] != '[' && ':' !in hp
    ensures SplitHostPort(block) == HostAndPort(HostPort(block), 0, true)
  {
    var hp := HostPort(block);
    assert !HasPort(hp);
    assert Substr(hp, 0, NPos) == hp;
  }

  lemma SplitUnchecked(block: string)
    requires var hp := HostPort(block); hp == [] || hp[0] == '['
    ensures SplitHostPort(block) == HostAndPort(Substr(HostPort(block), 0, Find(block, '@')), 0, true)
  {
  }

  /** `parse_authority`. */
  function Parse(uri: string): (r: Stage<Authority>)
    ensures r.error == None || r.error == InvalidPort
    ensures r.error == InvalidPort ==> r.value.host == ""
    ensures r.value.host <= HostPort(r.value.authority)
    ensures |r.rest| <= |uri|
  {
    if !HasAuthority(uri) then Stage(DefaultAuthority, None, uri)
    else
      var block := Block(uri);
      var split := SplitHostPort(block);
      var authority := Authority(block, Userinfo(block), split.host, split.port);
      if split.portOk then Stage(authority, None, Rest(uri))
      else Stage(authority, InvalidPort, HostPort(block))
  }

  /** Without a leading `//` the stage returns the default authority and the
      input unchanged. */
  lemma NoAuthority(uri: string)
    requires !HasAuthority(uri)
    ensures Parse(uri) == Stage(DefaultAuthority, None, uri)
  {
  }

  /** The raw block, the userinfo and the rest. The rest starts at the `/`
      that ends the block; when there is none, `npos + 2` wraps to 1 and the
      rest is the input from index 1. */
  lemma BlockAndRest(uri: string)
    requires HasAuthority(uri)
    ensures var r := Parse(uri);
      && r.value.authority == Block(uri)
      && r.value.userinfo == Userinfo(Block(uri))
      && r.error != InvalidScheme
    ensures var r := Parse(uri);
      r.error == None ==>
        if '/' in uri[2..] then r.rest == uri[2 + |Block(uri)|..] && r.rest[0] == '/'
        else r.rest == uri[1..]
  {
  }

  /** The port is accepted exactly when `strtol` consumes all the text after
      the first `:`; otherwise the stage fails with `InvalidPort`, keeping the
      block and the userinfo, an empty host, and returning the host-and-port
      text as the rest. */
  lemma PortError(uri: string)
    requires HasAuthority(uri)
    ensures var r := Parse(uri); var hp := HostPort(Block(uri));
      r.error == InvalidPort <==> PortRejected(hp)
    ensures var r := Parse(uri);
      r.error == InvalidPort ==> r.value.host == "" && r.rest == HostPort(Block(uri))
  {
  }

  /** On success with a port, the host-and-port text is the host, a `:` and a
      port text that `strtol` consumes entirely, the host holds no `:`, and
      the port is the converted value. */
  lemma ColonSplit(hp: string)
    requires Find(hp, ':').At? && SplitAtColon(hp).portOk
    ensures var split := SplitAtColon(hp);
      && |split.host| < |hp|
      && hp == split.host + [':'] + hp[|split.host| + 1..]
      && ':' !in split.host
      && Strtol(hp[|split.host| + 1..]) == Conversion(split.port, |hp| - |split.host| - 1)
  {
    var colon := Find(hp, ':').index;
    var conv := Strtol(hp[colon + 1..]);
    SplitAtColonIs(hp, colon, conv);
    assert SplitAtColon(hp) == HostAndPort(hp[..colon], conv.value, true);
    SplitAround(hp, colon);
  }

  /** An accepted port: the host is the text before the first `:` of the
      host text, the port is what `strtol` reads after it, and there is no
      error. */
  lemma PortAccepted(uri: string)
    requires HasAuthority(uri)
    requires var hp := HostPort(Block(uri)); HasPort(hp) && !PortRejected(hp)
    ensures var hp := HostPort(Block(uri)); var c := Find(hp, ':').index;
      && Parse(uri).error == None
      && Parse(uri).value.host == hp[..c]
      && Parse(uri).value.port == Strtol(hp[c + 1..]).value
  {
    SplitWithColon(Block(uri));
  }

  /** Without a `:`, and outside an IPv6 literal, the host is the whole
      host-and-port text and the port stays 0. */
  lemma HostWithoutPort(uri: string)
    requires HasAuthority(uri)
    requires var hp := HostPort(Block(uri)); hp != [] && hp[0] != '[' && ':' !in hp
    ensures Parse(uri).error == None
    ensures Parse(uri).value.host == HostPort(Block(uri)) && Parse(uri).value.port == 0
  {
  }

  /** A host text that starts with `[` never produces a port or an error. Its
      host is cut at the index of the `@` in the block (the stale result of
      the `@` search), that is, at the length of the userinfo: with a
      userinfo shorter than the host text it loses characters, with a longer
      one it is kept whole. */
  lemma BracketHost(uri: string)
    requires HasAuthority(uri)
    requires var hp := HostPort(Block(uri)); hp != [] && hp[0] == '['
    ensures var r := Parse(uri); var hp := HostPort(Block(uri)); var u := Userinfo(Block(uri));
      && r.error == None
      && r.value.port == 0
      && ('@' !in Block(uri) ==> r.value.host == hp)
      && ('@' in Block(uri) ==> r.value.host == hp[..if |u| < |hp| then |u| else |hp|])
  {
    var block := Block(uri);
    SplitUnchecked(block);
    assert Parse(uri) == Stage(Authority(block, Userinfo(block), SplitHostPort(block).host, 0), None, Rest(uri));
  }

  /** An empty host text gives an empty host, port 0 and no error. */
  lemma EmptyHost(uri: string)
    requires HasAuthority(uri)
    requires HostPort(Block(uri)) == []
    ensures Parse(uri).error == None
    ensures Parse(uri).value.host == [] && Parse(uri).value.port == 0
  {
  }

  /** Every character of a userinfo, `@`, host, `:` and port text, where
      none of the parts holds a `/`. */
  lemma NoSlashInComposed(userinfo: string, host: string, digits: string)
    requires '/' !in userinfo && '/' !in host && AllDigits(digits)
    ensures '/' !in userinfo + ['@'] + host + [':'] + digits
  {
    var block := userinfo + ['@'] + host + [':'] + digits;
    forall k | 0 <= k < |block| ensures block[k] != '/' {
      if k < |userinfo| { assert block[k] == userinfo[k]; }
      else if k > |userinfo| && k < |userinfo| + 1 + |host| { assert block[k] == host[k - |userinfo| - 1]; }
      else if k > |userinfo| + 1 + |host| { assert IsDigit(digits[k - |userinfo| - |host| - 2]); }
    }
  }

  /** A block followed by a path that starts with `/` is cut exactly there. */
  lemma BlockOfComposed(block: string, path: string)
    requires '/' !in block && path != [] && path[0] == '/'
    ensures var uri := ['/', '/'] + block + path; Block(uri) == block && Rest(uri) == path
  {
    var uri := ['/', '/'] + block + path;
    assert uri[2..] == block + path;
    assert (block + path)[..|block|] == block;
    assert BlockEnd(uri) == At(|block|);
    assert uri[2 + |block|..] == path;
  }

  /** A block with no path after it is the rest of the input, and the rest
      repeats it after a `/` (the `npos + 2` wrap). */
  lemma BlockWithoutPath(block: string)
    requires '/' !in block
    ensures var uri := ['/', '/'] + block; Block(uri) == block && Rest(uri) == ['/'] + block
  {
    var uri := ['/', '/'] + block;
    assert uri[2..] == block;
    assert uri[1..] == ['/'] + block;
  }

  /** `//host` alone: the host, no port, and the rest `/host`. */
  lemma ParseHostOnly(host: string)
    requires host != [] && host[0] != '[' && '/' !in host && '@' !in host && ':' !in host
    ensures Parse(['/', '/'] + host) == Stage(Authority(host, "", host, 0), None, ['/'] + host)
  {
    var uri := ['/', '/'] + host;
    BlockWithoutPath(host);
    assert HostPort(host) == host && Userinfo(host) == "";
    SplitWithoutColon(host);
  }

  /** `userinfo@hp` splits back into its userinfo and host-and-port text. */
  lemma UserinfoOfComposed(userinfo: string, hp: string)
    requires '@' !in userinfo
    ensures Userinfo(userinfo + ['@'] + hp) == userinfo && HostPort(userinfo + ['@'] + hp) == hp
  {
    var block := userinfo + ['@'] + hp;
    assert block[..|userinfo|] == userinfo;
    FindAt(block, '@', |userinfo|);
    assert block[|userinfo| + 1..] == hp;
  }

  /** `host:digits` splits back into the host and the value of the digits. */
  lemma PortOfComposed(host: string, digits: string)
    requires host != [] && host[0] != '[' && ':' !in host
    requires digits != [] && AllDigits(digits)
    ensures HasPort(host + [':'] + digits)
    ensures SplitAtColon(host + [':'] + digits) == HostAndPort(host, DigitsValue(digits), true)
  {
    var hp := host + [':'] + digits;
    assert hp[..|host|] == host;
    FindAt(hp, ':', |host|);
    assert hp[|host| + 1..] == digits;
    assert NumberShape(digits, 0, 0);
    StrtolOfNumber(digits, 0, 0);
  }

  /** `userinfo@host:digits` splits back into its userinfo, host and the
      value of the digits. */
  lemma SplitOfComposed(userinfo: string, host: string, digits: string)
    requires '@' !in userinfo
    requires host != [] && host[0] != '[' && '@' !in host && ':' !in host
    requires digits != [] && AllDigits(digits)
    ensures var block := userinfo + ['@'] + host + [':'] + digits;
      && Userinfo(block) == userinfo
      && SplitHostPort(block) == HostAndPort(host, DigitsValue(digits), true)
  {
    var hp := host + [':'] + digits;
    var block := userinfo + ['@'] + hp;
    assert block == userinfo + ['@'] + host + [':'] + digits;
    UserinfoOfComposed(userinfo, hp);
    PortOfComposed(host, digits);
    SplitWithColon(block);
  }

  /** The authority written out as `//userinfo@host:port` followed by a path
      that starts with `/` parses back into its parts, whatever decimal
      spelling the port has. */
  lemma ParseComposed(userinfo: string, host: string, digits: string, path: string)
    requires '/' !in userinfo && '@' !in userinfo
    requires host != [] && host[0] != '[' && '/' !in host && '@' !in host && ':' !in host
    requires digits != [] && AllDigits(digits)
    requires path != [] && path[0] == '/'
    ensures var block := userinfo + ['@'] + host + [':'] + digits;
      Parse(['/', '/'] + block + path) == Stage(Authority(block, userinfo, host, DigitsValue(digits)), None, path)
  {
    var block := userinfo + ['@'] + host + [':'] + digits;
    var uri := ['/', '/'] + block + path;
    NoSlashInComposed(userinfo, host, digits);
    BlockOfComposed(block, path);
    SplitOfComposed(userinfo, host, digits);
    assert HasAuthority(uri);
    assert Parse(uri) == Stage(Authority(block, Userinfo(block), host, DigitsValue(digits)), None, Rest(uri));
  }

  /** The same without userinfo: `//host:port` followed by a path that
      starts with `/` gives an empty userinfo, the host and the port, and
      leaves exactly the path. */
  lemma ParseComposedHostPort(host: string, digits: string, path: string)
    requires host != [] && host[0] != '[' && '/' !in host && '@' !in host && ':' !in host
    requires digits != [] && AllDigits(digits)
    requires path != [] && path[0] == '/'
    ensures var block := host + [':'] + digits;
      Parse(['/', '/'] + block + path) == Stage(Authority(block, "", host, DigitsValue(digits)), None, path)
  {
    var block := host + [':'] + digits;
    var uri := ['/', '/'] + block + path;
    forall k | 0 <= k < |block| ensures block[k] != '/' && block[k] != '@' {
      if k < |host| { assert block[k] == host[k]; }
      else if k > |host| { assert IsDigit(digits[k - |host| - 1]); }
    }
    BlockOfComposed(block, path);
    assert HostPort(block) == block && Userinfo(block) == "";
    PortOfComposed(host, digits);
    assert SplitHostPort(block) == HostAndPort(host, DigitsValue(digits), true);
    assert HasAuthority(uri);
    assert Parse(uri) == Stage(Authority(block, "", host, DigitsValue(digits)), None, Rest(uri));
  }

  /** An empty authority, `//` directly followed by a path: an empty block,
      the default authority, and exactly the path as the rest. */
  lemma ParseEmptyAuthority(path: string)
    requires path != [] && path[0] == '/'
    ensures Parse(['/', '/'] + path) == Stage(DefaultAuthority, None, path)
  {
    BlockOfComposed([], path);
    assert ['/', '/'] + [] + path == ['/', '/'] + path;
    assert HostPort([]) == [] && Userinfo([]) == [];
  }

  /** In particular every port number written in decimal reads back. */
  lemma ParseComposedPort(userinfo: string, host: string, port: nat, path: string)
    requires '/' !in userinfo && '@' !in userinfo
    requires host != [] && host[0] != '[' && '/' !in host && '@' !in host && ':' !in host
    requires path != [] && path[0] == '/'
    ensures var block := userinfo + ['@'] + host + [':'] + DecimalText(port);
      Parse(['/', '/'] + block + path) == Stage(Authority(block, userinfo, host, port), None, path)
  {
    ParseComposed(userinfo, host, DecimalText(port), path);
    DigitsValueOfDecimal(port);
  }

  /** The host-and-port step of `parse_authority`: `port` is set from
      `strtol` before its end pointer is checked, and the host is cut at the
      last searched position. */
  method SplitRun(hp: string, pos: Pos) returns (split: HostAndPort)
    ensures split == SplitHostPortAt(hp, pos)
  {
    var last := pos;
    var port := 0;
    if hp != [] && hp[0] != '[' {
      last := Find(hp, ':');
      if last.At? {
        var conv := Strtol(hp[last.index + 1..]);
        port := conv.value;
        SplitAtColonIs(hp, last.index, conv);
        if conv.consumed != |hp| - (last.index + 1) {
          return HostAndPort("", port, false);
        }
      } else {
        assert Substr(hp, 0, last) == hp;
      }
    }
    return HostAndPort(Substr(hp, 0, last), port, true);
  }

  /** `parse_authority`, step by step: the result is filled field by field
      while `auth_string` and `pos` are reassigned. */
  method Run(uri: string) returns (r: Stage<Authority>)
    ensures r == Parse(uri)
  {
    var authority := DefaultAuthority;
    var hasAuthority := |uri| >= 2 && uri[0] == '/' && uri[1] == '/';
    if !hasAuthority {
      return Stage(authority, None, uri);
    }
    var pos := Find(uri[2..], '/');
    var authString := Substr(uri, 2, pos);
    var rem := Suffix(uri, WrapAdd(pos, 2));
    authority := authority.(authority := authString);
    ghost var block := authString;
    assert block == Block(uri) && rem == Rest(uri);

    pos := Find(authString, '@');
    if pos.At? {
      authority := authority.(userinfo := authString[..pos.index]);
      authString := authString[pos.index + 1..];
    }
    assert authority.userinfo == Userinfo(block);
    assert authString == HostPort(block);

    var split := SplitRun(authString, pos);
    authority := authority.(port := split.port);
    if !split.portOk {
      return Stage(authority.(host := split.host), InvalidPort, authString);
    }
    authority := authority.(host := split.host);
    return Stage(authority, None, rem);
  }
}
