/** The slice of the C++ string library the parser relies on: `find`,
    `find_first_of`, `substr`, the `npos` sentinel with its unsigned
    wrap-around, and the ASCII character classes of `<cctype>`. */
module Text {

  /** A position returned by a search: an index into the searched text, or
      `npos` when nothing was found. */
  datatype Pos = At(index: nat) | NPos

  /** `npos`, the largest value of a 64-bit `size_t`. */
  const SIZE_MAX: nat := 0xFFFF_FFFF_FFFF_FFFF

  /** `find_first_of`: the first index of `s` holding a character of `cs`. */
  function FindFirstOf(s: string, cs: set<char>): (p: Pos)
    ensures p.At? ==> p.index < |s| && s[p.index] in cs
    ensures p.At? ==> forall j :: 0 <= j < p.index ==> s[j] !in cs
    ensures p.NPos? <==> forall j :: 0 <= j < |s| ==> s[j] !in cs
  {
    if s == [] then NPos
    else if s[0] in cs then At(0)
    else match FindFirstOf(s[1..], cs)
      case NPos => NPos
      case At(i) => At(i + 1)
  }

  /** `find`: the first index of `s` holding `c`. */
  function Find(s: string, c: char): (p: Pos)
    ensures p.At? ==> p.index < |s| && s[p.index] == c
    ensures p.At? ==> forall j :: 0 <= j < p.index ==> s[j] != c
    ensures p.NPos? <==> c !in s
  {
    FindFirstOf(s, {c})
  }

  /** A search result is determined by the first match. */
  lemma FindFirstOfAt(s: string, cs: set<char>, i: nat)
    requires i < |s| && s[i] in cs
    requires forall j :: 0 <= j < i ==> s[j] !in cs
    ensures FindFirstOf(s, cs) == At(i)
  {
    assert FindFirstOf(s, cs).At?;
  }

  /** The search result is determined by the first occurrence. */
  lemma FindAt(s: string, c: char, i: nat)
    requires i < |s| && s[i] == c && c !in s[..i]
    ensures Find(s, c) == At(i)
  {
    assert Find(s, c).At?;
  }

  /** `pos + k` computed in `size_t`, for the small offsets the parser adds:
      an index found inside a string is far below `SIZE_MAX`, so it does not
      wrap; `npos + k` wraps to `k - 1`. */
  function WrapAdd(p: Pos, k: nat): (r: nat)
    requires 1 <= k <= 2
    ensures p.At? ==> r == p.index + k
    ensures p.NPos? ==> r == (SIZE_MAX + k) % (SIZE_MAX + 1)
  {
    match p
    case At(i) => i + k
    case NPos =>
      assert SIZE_MAX + k == (SIZE_MAX + 1) + (k - 1);
      k - 1
  }

  /** `s.substr(pos, count)`, where a count of `npos` means "to the end". The
      library throws when `pos > size()`; every call in the parser is proved
      to stay within that bound. */
  function Substr(s: string, pos: nat, count: Pos): (r: string)
    requires pos <= |s|
    ensures |r| <= |s| - pos && r == s[pos..pos + |r|]
    ensures count.NPos? ==> r == s[pos..]
    ensures count.At? ==> |r| == if pos + count.index <= |s| then count.index else |s| - pos
  {
    match count
    case NPos => s[pos..]
    case At(n) => if pos + n <= |s| then s[pos..pos + n] else s[pos..]
  }

  /** `s.substr(pos)`: the suffix from `pos`. */
  function Suffix(s: string, pos: nat): (r: string)
    requires pos <= |s|
    ensures |r| == |s| - pos && s == s[..pos] + r
  {
    Substr(s, pos, NPos)
  }

  /** A text is what comes before index `i`, the character at `i`, and what
      comes after it. */
  lemma SplitAround(s: string, i: nat)
    requires i < |s|
    ensures s == s[..i] + [s[i]] + s[i + 1..]
  {
  }

  predicate IsUpper(c: char) { 'A' <= c <= 'Z' }

  predicate IsLower(c: char) { 'a' <= c <= 'z' }

  predicate IsDigit(c: char) { '0' <= c <= '9' }

  /** `std::isalnum` in the "C" locale. */
  predicate IsAlnum(c: char) { IsUpper(c) || IsLower(c) || IsDigit(c) }

  /** `std::isspace` in the "C" locale: space, `\t`, `\n`, `\v`, `\f`, `\r`. */
  predicate IsSpace(c: char) {
    c == ' ' || c == '\t' || c == '\n' || c == 11 as char || c == 12 as char || c == '\r'
  }

  /** `std::tolower` in the "C" locale. */
  function ToLower(c: char): (r: char)
    ensures !IsUpper(r)
    ensures IsUpper(c) ==> r as int == c as int + 32
    ensures !IsUpper(c) ==> r == c
  {
    if IsUpper(c) then (c as int + 32) as char else c
  }

  /** The string with every character passed through `ToLower`. */
  function Lowered(s: string): (r: string)
    ensures |r| == |s|
    ensures forall i :: 0 <= i < |s| ==> r[i] == ToLower(s[i])
  {
    seq(|s|, i requires 0 <= i < |s| => ToLower(s[i]))
  }
}
