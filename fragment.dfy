/** The fragment stage. */
module FragmentParser {
  import opened UriTypes

  /** `parse_fragment`: the whole remaining input is the fragment, and it is
      also handed back as the rest. */
  function Parse(uri: string): (r: Stage<string>)
    ensures r.error == None && r.value == uri && r.rest == uri
  {
    Stage(uri, None, uri)
  }
}
