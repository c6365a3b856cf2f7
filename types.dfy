/** The values the parser produces: the error kinds, the authority block,
    the decomposed URI, and the (payload, error, rest) triple each stage
    returns. */
module UriTypes {

  datatype Error = None | InvalidScheme | InvalidPort

  /** The authority block: its raw text, the userinfo before `@`, the host
      and the numeric port (0 when none is given). */
  datatype Authority = Authority(authority: string, userinfo: string, host: string, port: int)

  /** A default-constructed `Authority`: empty strings and port 0. */
  const DefaultAuthority := Authority("", "", "", 0)

  datatype Uri = Uri(
    error: Error,
    scheme: string,
    authority: Authority,
    path: string,
    query: map<string, string>,
    queryString: string,
    fragment: string)

  /** `Uri{ error }`: the given error, every other field at its default
      value. */
  function ErrorUri(e: Error): Uri {
    Uri(e, "", DefaultAuthority, "", map[], "", "")
  }

  /** What the scheme, authority, path and fragment stages return: a piece of
      the result, an error kind and the unconsumed rest of the input. */
  datatype Stage<T> = Stage(value: T, error: Error, rest: string)

  /** What the query stage returns: the key/value map, the raw query text,
      an error kind and the rest of the input. */
  datatype QueryStage = QueryStage(query: map<string, string>, queryString: string, error: Error, rest: string)
}
