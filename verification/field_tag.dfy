/** The `fieldTag` record of field.go and the grammar of the `conf` tag it is
    parsed from: `<path>` or `<path>,required`. */
module FieldTags {
  import opened Wrappers
  import opened Errors
  import opened GoStrings

  const Separator := ','
  const RequiredToken := "required"

  /** A parsed tag: the dotted tree path and whether the field is required.
      It holds nothing else. */
  datatype FieldTag = FieldTag(tag: string, req: bool) {

    /** `isRequired`: the flag, read without changing the record; together
        with the path it rebuilds the record exactly. */
    function IsRequired(): (r: bool)
      ensures FieldTag(tag, r) == this
    {
      req
    }

    /** `getTag`: the path, read without changing the record; together with
        the flag it rebuilds the record exactly. */
    function GetTag(): (r: string)
      ensures FieldTag(r, req) == this
    {
      tag
    }
  }

  /** A path the tag grammar can carry: non-empty and comma-free. */
  predicate ValidPath(p: string) {
    p != "" && Separator !in p
  }

  /** The tag text that denotes `t`; the inverse of `ParseTag`. */
  function Format(t: FieldTag): string {
    t.tag + (if t.req then [Separator] + RequiredToken else "")
  }

  /** Parse a `conf` tag value: split at the first comma only, reject any
      empty part, and accept a second part only when it is exactly
      `required`. */
  function ParseTag(tg: string): (r: Result<FieldTag, Error>)
    ensures r.Success? ==> ValidPath(r.value.tag) && Format(r.value) == tg
    ensures r.Failure? ==> r.error == InvalidTagLen || r.error.InvalidTag?
    ensures r.Failure? && r.error.InvalidTag? ==>
              r.error.part != "" && r.error.part != RequiredToken && Separator in tg
  {
    var parts := SplitFirst(tg, Separator);
    if "" in parts then
      Failure(InvalidTagLen)
    else if |parts| == 2 then
      if parts[1] == RequiredToken then
        Success(FieldTag(parts[0], true))
      else
        Failure(InvalidTag(parts[1]))
    else
      Success(FieldTag(parts[0], false))
  }
}

/** Properties of the tag grammar. */
module FieldTagProperties {
  import opened Wrappers
  import opened Errors
  import opened GoStrings
  import opened FieldTags

  /** Round trip: every tag with a valid path parses back from its text. With
      the `ensures` of `ParseTag` (a parsed tag formats back to its input) this
      makes `ParseTag` succeed on exactly the texts `Format` produces. */
  lemma {:induction false} ParseFormat(t: FieldTag)
    requires ValidPath(t.tag)
    ensures ParseTag(Format(t)) == Success(t)
  {
    if t.req {
      assert Format(t) == t.tag + [Separator] + RequiredToken;
      SplitFirstJoin(t.tag, Separator, RequiredToken);
    } else {
      assert Format(t) == t.tag;
      SplitFirstNoSeparator(t.tag, Separator);
    }
  }

  /** A comma-free tag is a bare path: rejected when empty, otherwise an
      optional field at that path. */
  lemma {:induction false} ParseTagWithoutComma(p: string)
    requires Separator !in p
    ensures ParseTag(p) == if p == "" then Failure(InvalidTagLen) else Success(FieldTag(p, false))
  {
    SplitFirstNoSeparator(p, Separator);
  }

  /** A tag with a comma is cut at its first comma into `p` and `q`: an empty
      side gives "invalid tag len", `q` equal to `required` marks the field
      required, and any other `q` (even one holding further commas) is
      rejected with `q` named in the error. */
  lemma {:induction false} ParseTagWithComma(p: string, q: string)
    requires Separator !in p
    ensures ParseTag(p + [Separator] + q) ==
      if p == "" || q == "" then Failure(InvalidTagLen)
      else if q == RequiredToken then Success(FieldTag(p, true))
      else Failure(InvalidTag(q))
  {
    SplitFirstJoin(p, Separator, q);
  }

  /** Empty parts are rejected before the second part is looked at. */
  lemma EmptyPartExamples()
    ensures ParseTag("") == Failure(InvalidTagLen)
    ensures ParseTag(",required") == Failure(InvalidTagLen)
    ensures ParseTag("a,") == Failure(InvalidTagLen)
  {
    ParseTagWithoutComma("");
    assert ",required" == "" + [Separator] + "required";
    ParseTagWithComma("", "required");
    assert "a," == "a" + [Separator] + "";
    ParseTagWithComma("a", "");
  }

  /** A bare path is optional. */
  lemma OptionalExample()
    ensures ParseTag("server.port") == Success(FieldTag("server.port", false))
  {
    assert Separator !in "server.port";
    ParseTagWithoutComma("server.port");
  }

  /** `,required` after the path makes the field required. */
  lemma RequiredExample()
    ensures ParseTag("server.port,required") == Success(FieldTag("server.port", true))
  {
    var p, q := "server.port", "required";
    assert Separator !in p && p != "" && q == RequiredToken;
    assert "server.port,required" == p + [Separator] + q;
    ParseTagWithComma(p, q);
  }

  /** Any other second part is named in the error. */
  lemma UnknownTokenExample()
    ensures ParseTag("path,unrequired") == Failure(InvalidTag("unrequired"))
  {
    var p, q := "path", "unrequired";
    assert Separator !in p && p != "" && q != "" && q != RequiredToken;
    assert "path,unrequired" == p + [Separator] + q;
    ParseTagWithComma(p, q);
  }

  /** The tag is cut at its first comma only, so a repeated `required` leaves
      the second part `required,required`, which is rejected. */
  lemma RepeatedRequiredExample()
    ensures ParseTag("a,required,required") == Failure(InvalidTag("required,required"))
  {
    var p, q := "a", "required,required";
    assert Separator !in p && p != "" && q != "" && q != RequiredToken;
    assert "a,required,required" == p + [Separator] + q;
    ParseTagWithComma(p, q);
  }
}
