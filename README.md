# simple-uri-parser in Dafny

A model of `uri_parser.h`, a header-only C++ URI decomposer. `parse_uri` splits
an input string into scheme, authority (raw block, userinfo, host, port), path,
query map, raw query string and fragment. It runs five stages in a fixed order.
Each stage returns a piece of the result, an error kind and the unconsumed rest
of its input, and the first error ends the parse with every other field at its
default.

The project follows that structure, one module per stage:

| file | module | models |
|---|---|---|
| `text.dfy` | `Text` | `find`, `find_first_of`, `substr`, `npos`, `size_t` wrap-around of `pos + k`, the "C" locale character classes |
| `strtol.dfy` | `StringToLong` | base-10 `std::strtol`: value and end pointer |
| `types.dfy` | `UriTypes` | `Error`, `Authority`, `Uri`, the stage result triples |
| `scheme.dfy` | `SchemeParser` | `valid_scheme`, `parse_scheme` |
| `authority.dfy` | `AuthorityParser` | `parse_authority` |
| `path.dfy` | `PathParser` | `parse_path` |
| `query.dfy` | `QueryParser` | `parse_query` |
| `fragment.dfy` | `FragmentParser` | `parse_fragment` |
| `uri_parser.dfy` | `UriParser` | `parse_uri` |

Each stage has a function `Parse` that follows the code's index arithmetic step
by step. The stages that change things step by step are also methods:
- `SchemeParser.Run` lower-cases a character buffer in place (`LowerInPlace`, the `std::transform`).
- `AuthorityParser.Run` fills the `Authority` value field by field while reassigning `auth_string` and `pos`.
- `QueryParser.Run` is the `while` loop that shrinks `query_substring` and updates the map.
- `UriParser.Run` unpacks each stage's result as `std::tie` does and returns early on an error.

Each method is proved equal to its function. The properties are proved as lemmas
about the functions.

`npos` is the case `NPos` of the datatype `Pos`. `pos + k` on a `size_t` is
`WrapAdd`: an index that was found cannot overflow, and `npos + k` wraps to
`k - 1`. The model keeps, as the code behaves, the two places where that wrap
changes the result and one place where a stale index does:

- **Authority rest.** When no `/` follows the leading `//`, `pos + 2` is 1. The
  rest handed to the path stage is then the input from index 1, not the empty
  text. `scheme://host` therefore has the path `/host` (`AuthorityParser.BlockAndRest`,
  `UriParser.HostOnly`).
- **Fragment.** When the text after the path has no `#`, `hash_pos + 1` is 0.
  The fragment is then the whole query text again (`QueryParser.ParseSplits`,
  `UriParser.SuccessShape`).
- **Host.** When the port branch is skipped (an empty host text, or one that
  starts with `[`), the host is cut at the `pos` left over from the `@` search
  over the whole block. So `[::1]` after `user@` loses characters, and without
  `@` the host is the whole text (`AuthorityParser.BracketHost`).

In the same spirit, when the text after the path's delimiter holds no `#`, the
fragment stage receives all of it. So when the path ends at `#` (no `?` comes
before it), the text after that `#`, up to any further `#`, is also decoded
as a query.

The example program shows `query_string` with a leading `?`. The code never
includes one, because the path stage drops the delimiter; the model follows the
code.

## Model

| member | source | states |
|---|---|---|
| UriTypes.Error | uri_parser.h:32-36 | the three error kinds: none, an invalid scheme, an invalid port |
| UriTypes.Authority | uri_parser.h:38-43 | the raw authority block, the userinfo, the host and the numeric port |
| UriTypes.DefaultAuthority | uri_parser.h:38-43 | a default-constructed `Authority`: empty strings and port 0 |
| UriTypes.Uri | uri_parser.h:150-158 | the decomposed URI: error, scheme, authority, path, query map, raw query string and fragment |
| UriTypes.ErrorUri | uri_parser.h:167 | `Uri{ error }`: the given error with every other field at its default, empty strings, port 0 and an empty map |
| UriTypes.Stage | uri_parser.h:57 | the `std::tuple` a scheme, authority, path or fragment stage returns: a piece of the result, an error kind and the rest of the input |
| UriTypes.QueryStage | uri_parser.h:120 | the `std::tuple` the query stage returns: the map, the raw query string, an error kind and the rest of the input |
| Text.Pos | uri_parser.h:23 | a search result: an index into the searched text, or `npos` |
| Text.FindFirstOf | uri_parser.h:110 | the result is the first index holding a character of the set, or `npos` exactly when none does |
| Text.Find | uri_parser.h:58 | the result is the first index holding the character, or `npos` exactly when it does not occur |
| Text.FindAt | uri_parser.h:87 | an index holding the character with no earlier occurrence is what `find` returns |
| Text.FindFirstOfAt | uri_parser.h:126 | an index holding a delimiter with no earlier delimiter is what `find_first_of` returns |
| Text.WrapAdd | uri_parser.h:84 | `pos + k` in `size_t`: a found index plus `k`, and `npos + k` equal to `(SIZE_MAX + k) mod 2^64` |
| Text.Substr | uri_parser.h:83 | `substr(pos, count)` is a slice of the input starting at `pos`, the whole suffix for a count of `npos`, clipped at the end otherwise |
| Text.Suffix | uri_parser.h:71 | `substr(pos)` is the part after `pos`: prefix and suffix make up the input |
| Text.ToLower | uri_parser.h:68-69 | `tolower` maps each upper-case ASCII letter to its lower-case letter, 32 code points up, and leaves every other character alone |
| Text.Lowered | uri_parser.h:68-69 | the transformed string has the same length and each character passed through `tolower` |
| Text.IsAlnum | uri_parser.h:52 | `std::isalnum` in the "C" locale: ASCII letters and digits |
| Text.IsSpace | uri_parser.h:97 | the white space `strtol` skips in the "C" locale: space, tab, newline, vertical tab, form feed, carriage return |
| StringToLong.SpaceRun | uri_parser.h:97 | the leading white space `strtol` skips: all white space, and followed by a non-space character or the end |
| StringToLong.DigitRun | uri_parser.h:97 | the longest run of leading decimal digits |
| StringToLong.DigitsValue | uri_parser.h:97 | the base-10 value of a digit string read left to right, the magnitude `strtol` converts |
| StringToLong.Strtol | uri_parser.h:97 | the end pointer never passes the text; nothing is consumed exactly when no digit follows the leading white space and sign, and the value is then 0; otherwise the last consumed character is a digit |
| StringToLong.StrtolOfNumber | uri_parser.h:97-98 | on white space, an optional sign and digits, `strtol` consumes the whole text and returns the signed value of the digits |
| StringToLong.ConsumesAllIff | uri_parser.h:97-98 | `strtol` consumes the whole text exactly when the text is empty or has the shape of a decimal number |
| StringToLong.DigitsValueOfDecimal | uri_parser.h:97 | the decimal spelling of any natural number reads back as that number |
| StringToLong.StrtolReadsDecimal | uri_parser.h:97 | `strtol` reads back every port number written in decimal, consuming all of it |
| SchemeParser.IsSchemeChar | uri_parser.h:51-53 | the characters allowed in a scheme: ASCII letters and digits, `+`, `.` and `-` |
| SchemeParser.FirstNonSchemeChar | uri_parser.h:51-53 | `find_if_not`: every character before the result is allowed, and the one at the result is not |
| SchemeParser.ValidScheme | uri_parser.h:47-55 | a scheme is valid exactly when it is non-empty and every character is an ASCII letter, digit, `+`, `.` or `-` |
| SchemeParser.Parse | uri_parser.h:57-72 | the stage either succeeds or fails with `InvalidScheme`, an empty scheme and the input unchanged; on success the text before the `:` is a valid scheme as long as the result, and scheme, `:` and rest are as long as the input |
| SchemeParser.ParseFails | uri_parser.h:58-66 | the stage fails exactly when there is no `:` or the text before the first `:` is not a valid scheme; it then returns an empty scheme, `InvalidScheme` and the input unchanged |
| SchemeParser.ParseSucceeds | uri_parser.h:63-71 | on success the scheme is the lower-cased text before the first `:`, with no upper-case letter, and text, `:` and rest make up the input |
| SchemeParser.ParseComposed | uri_parser.h:57-72 | a valid scheme, a `:` and any text parse back into the lower-cased scheme and exactly that text |
| SchemeParser.ParseIgnoresCase | uri_parser.h:67-69 | schemes that differ only in letter case parse to the same result |
| SchemeParser.LowerInPlace | uri_parser.h:68-69 | the in-place `std::transform` leaves the buffer holding the lower-cased old contents |
| SchemeParser.Run | uri_parser.h:57-72 | the step-by-step stage returns what `SchemeParser.Parse` specifies |
| AuthorityParser.HasAuthority | uri_parser.h:77 | an authority follows exactly when the text starts with `//`; only the first two characters are inspected |
| AuthorityParser.HasPort | uri_parser.h:94-96 | the port branch runs when the host text is non-empty, does not start with `[` and holds a `:` |
| AuthorityParser.PortRejected | uri_parser.h:94-98 | the port branch runs and `strtol` stops before the end of the text after the first `:` |
| AuthorityParser.Block | uri_parser.h:82-83 | the raw block is the text from index 2 up to the next `/` or the end, and holds no `/` |
| AuthorityParser.Userinfo | uri_parser.h:87-89 | the userinfo holds no `@`; with an `@` in the block it is the text before the first one, without one it stays empty |
| AuthorityParser.HostPort | uri_parser.h:87-90 | with an `@`, the block is userinfo, `@` and the host text; without one the host text is the block |
| AuthorityParser.Rest | uri_parser.h:82-84 | the rest starts at the `/` that ends the block, or is the input from index 1 when there is none |
| AuthorityParser.SplitAtColon | uri_parser.h:95-100 | the port branch: the host is a prefix of the host text without `:`, ending just before its first `:`, and is empty when the port text is rejected |
| AuthorityParser.SplitHostPortAt | uri_parser.h:93-104 | the host is a prefix of the host text; the port text is rejected exactly as `PortRejected` says, and the host is then empty; without the port branch the port is 0 |
| AuthorityParser.SplitHostPort | uri_parser.h:87-104 | on a block, the host is a prefix of the text after the `@`, and the port text is rejected exactly as `PortRejected` says |
| AuthorityParser.SplitWithoutColon | uri_parser.h:94-104 | a host text that is non-empty, does not start with `[` and has no `:` becomes the whole host, with port 0 |
| AuthorityParser.Parse | uri_parser.h:74-107 | the stage reports no error or `InvalidPort`, and the host is then empty; the host is always a prefix of the block's text after the `@`, and the rest is never longer than the input |
| AuthorityParser.NoAuthority | uri_parser.h:75-80 | without a leading `//` the stage returns the default authority, no error and the input unchanged |
| AuthorityParser.BlockAndRest | uri_parser.h:82-91 | the raw block and userinfo fields, and the rest starting at the `/` or, without one, at index 1 |
| AuthorityParser.PortError | uri_parser.h:94-100 | `InvalidPort` exactly when the port branch runs and `strtol` stops short of the end; the host is then empty and the rest is the host text |
| AuthorityParser.PortAccepted | uri_parser.h:94-106 | when the port branch runs and the port text is accepted, there is no error, the host is the text before the first `:` of the host text, and the port is what `strtol` reads after it |
| AuthorityParser.ColonSplit | uri_parser.h:95-104 | an accepted port: the host text is host, `:` and a port text `strtol` consumes entirely, the host has no `:`, and the port is the converted value |
| AuthorityParser.HostWithoutPort | uri_parser.h:94-106 | without `:` outside an IPv6 literal the host is the whole host text, the port 0, and there is no error |
| AuthorityParser.BracketHost | uri_parser.h:94-104 | a `[`-prefixed host text never sets a port or an error, and is cut at the length of the userinfo when the block has an `@` |
| AuthorityParser.EmptyHost | uri_parser.h:94-104 | an empty host text gives an empty host, port 0 and no error |
| AuthorityParser.BlockOfComposed | uri_parser.h:82-85 | a block without `/` followed by a path starting with `/` is cut exactly there |
| AuthorityParser.BlockWithoutPath | uri_parser.h:82-84 | a block that runs to the end is returned whole, and the rest repeats it after a `/` |
| AuthorityParser.ParseHostOnly | uri_parser.h:74-107 | `//host` gives the host, port 0, and the rest `/host` |
| AuthorityParser.UserinfoOfComposed | uri_parser.h:87-90 | `userinfo@text` splits back into the userinfo and the text |
| AuthorityParser.PortOfComposed | uri_parser.h:94-104 | `host:digits` splits back into the host and the digits' value |
| AuthorityParser.SplitOfComposed | uri_parser.h:87-104 | `userinfo@host:digits` splits back into userinfo, host and the digits' value |
| AuthorityParser.ParseComposed | uri_parser.h:74-107 | `//userinfo@host:digits` followed by a path parses back into its parts, leaving exactly the path |
| AuthorityParser.ParseComposedHostPort | uri_parser.h:74-107 | `//host:digits` without userinfo, followed by a path, parses back into an empty userinfo, the host and the digits' value, leaving exactly the path |
| AuthorityParser.ParseEmptyAuthority | uri_parser.h:74-107 | `//` directly followed by a path gives the default authority and leaves exactly the path |
| AuthorityParser.ParseComposedPort | uri_parser.h:74-107 | the same for every port number written in decimal |
| AuthorityParser.SplitRun | uri_parser.h:93-104 | the step-by-step host-and-port part returns what `SplitHostPortAt` specifies |
| AuthorityParser.Run | uri_parser.h:74-107 | the step-by-step stage returns what `AuthorityParser.Parse` specifies |
| PathParser.Parse | uri_parser.h:109-118 | the stage never fails; the path holds no `#` or `?` and is a prefix of the input, and path and rest together are no longer than the input |
| PathParser.ParseSplits | uri_parser.h:109-118 | the stage never fails; the path holds no `#` or `?`; the input is path, delimiter and rest, or the whole path with an empty rest when neither occurs |
| PathParser.ParseComposed | uri_parser.h:109-118 | a path, a `#` or `?` and any text parse back into the path and exactly that text |
| QueryParser.Segments | uri_parser.h:125-139 | no argument the loop visits holds a separator |
| QueryParser.Key | uri_parser.h:128-132 | the key of an argument holds no `=` |
| QueryParser.Value | uri_parser.h:128-133 | with an `=`, the argument is its key, `=` and the value; without one the value is empty |
| QueryParser.Store | uri_parser.h:129-133 | storing arguments never removes a key, and every key it adds holds no `=` |
| QueryParser.QueryMap | uri_parser.h:124-139 | no key of the decoded map holds an `=` |
| QueryParser.Parse | uri_parser.h:120-142 | the stage never fails; the query string holds no `#` and is a prefix of the input |
| QueryParser.ParseSplits | uri_parser.h:120-142 | the stage never fails; the query string is the text before the first `#`, with the rest after it; without `#` both are the whole input; the map decodes the query string |
| QueryParser.ParseComposed | uri_parser.h:120-142 | a query string, a `#` and a fragment parse back into the decoded map, the query string and the fragment |
| QueryParser.StoreHasKey | uri_parser.h:129-133 | storing arguments one after another leaves a key present exactly when it was present before or some argument carries it |
| QueryParser.StoreLastWins | uri_parser.h:129-133 | the stored value of a key is that of the last argument carrying it |
| QueryParser.StoreKeeps | uri_parser.h:129-133 | a key no argument carries keeps its earlier value |
| QueryParser.QueryMapKeys | uri_parser.h:125-139 | the decoded map holds exactly the keys of the arguments |
| QueryParser.QueryMapLastWins | uri_parser.h:125-139 | each key maps to the value of its last argument |
| QueryParser.QueryMapEmpty | uri_parser.h:125 | an empty query string decodes to an empty map |
| QueryParser.Unseparated | uri_parser.h:126 | the text with the separators removed holds no separator |
| QueryParser.UnseparatedAppend | uri_parser.h:126 | removing separators distributes over concatenation |
| QueryParser.UnseparatedAround | uri_parser.h:126-137 | removing separators around the first one keeps the text before it and drops it |
| QueryParser.SegmentsCover | uri_parser.h:125-139 | the arguments laid end to end are the query string with its separators removed |
| QueryParser.SegmentsOfJoined | uri_parser.h:125-139 | arguments without separators joined with `&` decode back into the same arguments, when the last is non-empty |
| QueryParser.SegmentsCons | uri_parser.h:126-137 | `&`, `;` and `?` cut alike: a separator-free argument followed by any separator is the first argument, and the loop goes on with the text after that separator |
| QueryParser.KeyValueOfPair | uri_parser.h:128-132 | `key=value` with no `=` in the key splits back into key and value |
| QueryParser.KeyWithoutValue | uri_parser.h:129-130 | an argument without `=` is a key with an empty value |
| QueryParser.QueryMapOfTwo | uri_parser.h:125-139 | `k1=v1&k2=v2` decodes to the two pairs, the second winning on equal keys |
| QueryParser.Run | uri_parser.h:120-142 | the `while` loop returns what `QueryParser.Parse` specifies |
| FragmentParser.Parse | uri_parser.h:144-146 | the fragment is the whole remaining input, returned again as the rest, without error |
| UriParser.ParseUri | uri_parser.h:160-204 | a failed parse is `Uri{ error }`; on success the scheme has no upper-case letter, the path holds no `#` or `?`, and the query string holds no `#` |
| UriParser.ErrorOfFirstStages | uri_parser.h:160-193 | only the scheme and authority stages can fail: the error is the scheme stage's, or else the authority stage's |
| UriParser.SchemeErrorIff | uri_parser.h:58-168 | `InvalidScheme` exactly when the input has no `:` or the text before its first `:` is not a valid scheme |
| UriParser.PortErrorIff | uri_parser.h:94-174 | `InvalidPort` exactly when the scheme is valid, an authority follows, and the port branch runs and stops short (`PortRejected`): the host text is non-empty, does not start with `[`, holds a `:`, and the text after its first `:` is not consumed entirely by `strtol` |
| UriParser.SuccessFields | uri_parser.h:195-203 | on success the fields are the stage outputs, each stage reading the previous stage's rest, and the fragment is the query stage's rest |
| UriParser.SuccessShape | uri_parser.h:160-204 | on success the scheme is the lower-cased text before the first `:`, the path holds no `#` or `?`, the query string holds no `#` and decodes to the map, and the fragment follows the first `#` past the path or, without one, repeats the query string |
| UriParser.PathOnly | uri_parser.h:160-204 | a scheme followed by a text without `//`, `#` or `?` parses into the scheme and that text as the path |
| UriParser.NewsExample | uri_parser.h:160-204 | `news:test_path` has the path `test_path` and the default authority |
| UriParser.ParseComposed | uri_parser.h:160-204 | a URI written from scheme, userinfo, host, port digits, path, query string and fragment parses back into those parts |
| UriParser.ParseComposedNoFragment | uri_parser.h:160-204 | the same URI with a query string but no `#` parses back into its parts, with the fragment repeating the query string |
| UriParser.ServerPath | uri_parser.h:160-204 | `scheme://host:digits/path` with no userinfo, `?` or `#` parses into the host, the digits' value, the path, and an empty query and fragment |
| UriParser.UserServerPath | uri_parser.h:160-204 | `scheme://userinfo@host:digits/path` with no `?` or `#` parses into userinfo, host, the digits' value, the path, and an empty query and fragment |
| UriParser.EmptyAuthority | uri_parser.h:160-204 | `scheme:///path` gives the default authority and the path after `//`, with an empty query and fragment |
| UriParser.AuthorityOnly | uri_parser.h:82-204 | `scheme://block` with nothing after the block gives the authority stage's reading of the block and, by the wrap, the path `/block` |
| UriParser.HostOnly | uri_parser.h:82-204 | `scheme://host` has that host, port 0, the path `/host`, and an empty query and fragment |
| UriParser.Run | uri_parser.h:160-204 | the `std::tie` sequence with early returns returns what `UriParser.ParseUri` specifies |

## Left out

- The `std::string_view` / `std::string` switch on the language version: both give the same results on valid inputs and are modelled as one.
- StringToLong.Strtol: the value is an unbounded integer. Out-of-range ports are not clamped to `LONG_MIN`/`LONG_MAX`, and `errno` is not modelled.
- StringToLong.Strtol: reads only the text after the `:`. With a `string_view` the code passes a pointer into the caller's buffer, and `strtol` may read past the end of the view. The caller's input stops at the block's end (a `/`, which is not a digit) or at the end, so within the input the result is the same. Reading beyond the caller's buffer is memory behaviour outside the model.
- Text.IsAlnum, Text.IsSpace, Text.ToLower: the "C" locale on ASCII only. Other locales, and `char` values that are negative when passed to `<cctype>`, are not modelled.
- `std::unordered_map` is a Dafny `map`: iteration order and hashing are not modelled; lookup and overwrite are.
- Memory, allocation and exceptions: every `substr` in the code is proved to stay in bounds, so `std::out_of_range` cannot occur. Copies between `std::string` and views are plain values.
- The test suite and the example program are not part of this model; they only call `parse_uri`. The example program's displayed `query_string` with a leading `?` does not match the code, and the code is followed.
- Literal inputs: only `news:test_path` is stated on its literal text (`UriParser.NewsExample`). The other inputs of the test suite are instances of general lemmas, which are not evaluated on the literal text:
  - `news://example.com`: `UriParser.HostOnly`.
  - `news://user@example.com` and `news://user@example.com:5432`: `UriParser.AuthorityOnly`, with `AuthorityParser.UserinfoOfComposed`, `AuthorityParser.HostWithoutPort` and `AuthorityParser.PortAccepted` for the fields.
  - `news://user@example.com:52f`: `UriParser.PortErrorIff`.
  - `news://user@example.com:5432/test/path`: `UriParser.UserServerPath`.
  - `news:///test/path`: `UriParser.EmptyAuthority`.
  - the empty input, `:` and `news*:`: `UriParser.SchemeErrorIff`.
  - `news:`, `news:/test/path`, `news:test_path`, `tel:+1-816-555-1212` and the `urn:` path with colons: `UriParser.PathOnly`.
  - the query URIs without `#`: `UriParser.ParseComposedNoFragment`, with `QueryParser.QueryMapOfTwo` for a two-pair query string joined by `&`, and `QueryParser.SegmentsCons` for arguments cut at `;` or `?`.
  - the query URIs with `#`: `UriParser.ParseComposed`.
  - `telnet://192.0.2.16:80/`: `UriParser.ServerPath`.
  - `ldap://[2001:db8::7]/c=GB?objectClass?one`: the host only at the authority stage, by `AuthorityParser.BracketHost`, which keeps the IPv6 host whole because the block has no `@`; the query `objectClass?one` by `QueryParser.SegmentsCons` and `QueryParser.KeyWithoutValue`.
- One Dafny `char` stands for one C++ `char`, a byte. Non-ASCII text is modelled one byte per `char`. Read as Unicode scalar values, a userinfo would have a different length, and the host cut at that length would differ.
