/** The two pieces of Go's `strings` package the binder relies on, for a
    one-character separator: `strings.Index` and `strings.SplitN(s, sep, 2)`,
    together with `strings.Join`, their inverse. */
module GoStrings {
  import opened Wrappers

  /** Position of the first occurrence of `c` in `s`, or None (`strings.Index`
      returning -1). */
  function IndexOf(s: string, c: char): (r: Option<nat>)
    ensures r.None? <==> c !in s
    ensures r.Some? ==> r.value < |s| && s[r.value] == c && c !in s[..r.value]
  {
    if |s| == 0 then None
    else if s[0] == c then Some(0)
    else
      match IndexOf(s[1..], c)
      case None => None
      case Some(i) =>
        assert s[..i + 1] == [s[0]] + s[1..][..i];
        Some(i + 1)
  }

  /** `strings.Join(parts, string(sep))`. */
  function Join(parts: seq<string>, sep: char): string
  {
    if |parts| == 0 then ""
    else if |parts| == 1 then parts[0]
    else parts[0] + [sep] + Join(parts[1..], sep)
  }

  /** `strings.SplitN(s, string(sep), 2)`: the string is cut at the FIRST
      separator only, so the second part may itself contain separators. */
  function SplitFirst(s: string, sep: char): (parts: seq<string>)
    ensures 1 <= |parts| <= 2
    ensures sep !in parts[0]
    ensures |parts| == 1 <==> sep !in s
    ensures Join(parts, sep) == s
  {
    match IndexOf(s, sep)
    case None => [s]
    case Some(i) =>
      assert s == s[..i] + [sep] + s[i + 1..];
      [s[..i], s[i + 1..]]
  }

  /** Splitting a separator-free string gives the string back unchanged. */
  lemma SplitFirstNoSeparator(p: string, sep: char)
    requires sep !in p
    ensures SplitFirst(p, sep) == [p]
  {
  }

  /** Splitting `p + sep + q`, where `p` holds no separator, recovers exactly
      `p` and `q`, whatever `q` contains. */
  lemma SplitFirstJoin(p: string, sep: char, q: string)
    requires sep !in p
    ensures SplitFirst(p + [sep] + q, sep) == [p, q]
  {
    var s := p + [sep] + q;
    assert s[|p|] == sep;
    var i := IndexOf(s, sep).value;
    assert i == |p|;
    assert s[..i] == p;
    assert s[i + 1..] == q;
  }
}
