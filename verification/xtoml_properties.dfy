/** Properties of the binder: tag and presence handling of one field, the
    kind dispatch, and the behaviour of the whole pass. */
module XtomlProperties {
  import opened Wrappers
  import opened Errors
  import opened Reflect
  import opened Cast
  import opened FieldTags
  import opened FieldTagProperties
  import opened Xtoml
  import Fold

  // ---------------------------------------------------------------- one field

  /** A required path missing from the tree fails the field, naming the path. */
  lemma RequiredAbsent<V>(f: Field, p: string, tree: Tree<V>, casts: Casts<V>)
    requires ValidPath(p) && p !in tree
    requires TagKey in f.tags && f.tags[TagKey] == Format(FieldTag(p, true))
    ensures BindField(f, tree, casts) == Failure(MustBeSet(p))
  {
    ParseFormat(FieldTag(p, true));
  }

  /** An optional path missing from the tree leaves the field as it was. */
  lemma OptionalAbsent<V>(f: Field, p: string, tree: Tree<V>, casts: Casts<V>)
    requires ValidPath(p) && p !in tree
    requires TagKey in f.tags && f.tags[TagKey] == Format(FieldTag(p, false))
    ensures BindField(f, tree, casts) == Success(f)
  {
    ParseFormat(FieldTag(p, false));
  }

  /** A path present in the tree is written with the coerced value whether or
      not it is required; a coercion error fails the field. */
  lemma PresentWritten<V>(f: Field, t: FieldTag, tree: Tree<V>, casts: Casts<V>)
    requires ValidPath(t.tag) && t.tag in tree
    requires TagKey in f.tags && f.tags[TagKey] == Format(t)
    ensures var c := Coerce(f.typ, tree[t.tag], casts);
            BindField(f, tree, casts) == if c.Success? then Success(f.(value := c.value)) else Failure(c.error)
  {
    ParseFormat(t);
  }

  /** A malformed tag fails the field with the tag error, before the tree is
      consulted. */
  lemma MalformedTag<V>(f: Field, tree: Tree<V>, casts: Casts<V>)
    requires TagKey in f.tags && ParseTag(f.tags[TagKey]).Failure?
    ensures BindField(f, tree, casts) == Failure(ParseTag(f.tags[TagKey]).error)
    ensures BindField(f, tree, casts).error.InvalidTagLen? || BindField(f, tree, casts).error.InvalidTag?
  {
  }

  /** Re-binding a field that bound successfully changes nothing: the value
      written depends only on the tag, the type and the tree. */
  lemma BindFieldIdempotent<V>(f: Field, tree: Tree<V>, casts: Casts<V>)
    requires BindField(f, tree, casts).Success?
    ensures BindField(BindField(f, tree, casts).value, tree, casts) == BindField(f, tree, casts)
  {
  }

  // ---------------------------------------------------------- kind dispatch

  /** A `time.Duration` field uses the duration coercion and stores its
      integer nanoseconds; the coercion's error is passed through. */
  lemma DurationDispatch<V>(t: GoType, raw: V, casts: Casts<V>)
    requires IsSigned(t.kind) && IsDuration(t)
    ensures casts.toDuration(raw).Success? ==> Coerce(t, raw, casts) == Success(IntV(casts.toDuration(raw).value))
    ensures casts.toDuration(raw).Failure? ==> Coerce(t, raw, casts) == Failure(CastFailed(casts.toDuration(raw).error))
  {
  }

  /** A bool field uses the bool coercion; its error is passed through. */
  lemma BoolDispatch<V>(t: GoType, raw: V, casts: Casts<V>)
    requires t.kind.Bool?
    ensures casts.toBool(raw).Success? ==> Coerce(t, raw, casts) == Success(BoolV(casts.toBool(raw).value))
    ensures casts.toBool(raw).Failure? ==> Coerce(t, raw, casts) == Failure(CastFailed(casts.toBool(raw).error))
  {
  }

  /** An unsigned integer field (any width, `Uintptr` excepted) uses the
      uint64 coercion; its error is passed through. */
  lemma UnsignedDispatch<V>(t: GoType, raw: V, casts: Casts<V>)
    requires IsUnsigned(t.kind)
    ensures casts.toUint64(raw).Success? ==> Coerce(t, raw, casts) == Success(UintV(casts.toUint64(raw).value))
    ensures casts.toUint64(raw).Failure? ==> Coerce(t, raw, casts) == Failure(CastFailed(casts.toUint64(raw).error))
  {
  }

  /** A float field of either width uses the float64 coercion; its error is
      passed through. */
  lemma FloatDispatch<V>(t: GoType, raw: V, casts: Casts<V>)
    requires IsFloat(t.kind)
    ensures casts.toFloat64(raw).Success? ==> Coerce(t, raw, casts) == Success(FloatV(casts.toFloat64(raw).value))
    ensures casts.toFloat64(raw).Failure? ==> Coerce(t, raw, casts) == Failure(CastFailed(casts.toFloat64(raw).error))
  {
  }

  /** A string field uses the string coercion; its error is passed through. */
  lemma StringDispatch<V>(t: GoType, raw: V, casts: Casts<V>)
    requires t.kind.String?
    ensures casts.toString(raw).Success? ==> Coerce(t, raw, casts) == Success(StringV(casts.toString(raw).value))
    ensures casts.toString(raw).Failure? ==> Coerce(t, raw, casts) == Failure(CastFailed(casts.toString(raw).error))
  {
  }

  /** A named type that prints as `time.Duration` or `time.Time` but comes
      from another package called `time` is not the standard type: its
      integer form takes the int64 coercion, its struct form is unsupported. */
  lemma ForeignTimePackage<V>(raw: V, casts: Casts<V>)
    ensures var d := GoType("example.com/time", "Duration", "time.Duration", Int64);
            Coerce(d, raw, casts) == Coerce(GoType("", "int64", "int64", Int64), raw, casts)
    ensures Coerce(GoType("example.com/time", "Time", "time.Time", Struct), raw, casts)
            == Failure(Unsupported("time.Time"))
  {
  }

  /** Every other signed integer field uses the int64 coercion. */
  lemma SignedDispatch<V>(t: GoType, raw: V, casts: Casts<V>)
    requires IsSigned(t.kind) && !IsDuration(t)
    ensures casts.toInt64(raw).Success? ==> Coerce(t, raw, casts) == Success(IntV(casts.toInt64(raw).value))
    ensures casts.toInt64(raw).Failure? ==> Coerce(t, raw, casts) == Failure(CastFailed(casts.toInt64(raw).error))
  {
  }

  /** A slice is bound only when its elements are strings, through the
      string-slice coercion. */
  lemma SliceDispatch<V>(t: GoType, raw: V, casts: Casts<V>)
    requires t.kind.Slice?
    ensures t.kind.elem != String ==> Coerce(t, raw, casts) == Failure(Unsupported(t.text))
    ensures t.kind.elem == String && casts.toStringSlice(raw).Success? ==>
              Coerce(t, raw, casts) == Success(StringsV(casts.toStringSlice(raw).value))
    ensures t.kind.elem == String && casts.toStringSlice(raw).Failure? ==>
              Coerce(t, raw, casts) == Failure(CastFailed(casts.toStringSlice(raw).error))
  {
  }

  /** A struct is bound only when it is `time.Time`, through the time
      coercion. */
  lemma StructDispatch<V>(t: GoType, raw: V, casts: Casts<V>)
    requires t.kind.Struct?
    ensures !IsTime(t) ==> Coerce(t, raw, casts) == Failure(Unsupported(t.text))
    ensures IsTime(t) && casts.toTime(raw).Success? ==> Coerce(t, raw, casts) == Success(TimeV(casts.toTime(raw).value))
    ensures IsTime(t) && casts.toTime(raw).Failure? ==> Coerce(t, raw, casts) == Failure(CastFailed(casts.toTime(raw).error))
  {
  }

  /** A type without a coercion rule fails with its name, whatever the raw
      value and the coercions are. */
  lemma UnsupportedRejected<V>(t: GoType, raw: V, casts: Casts<V>)
    requires !Supported(t)
    ensures Coerce(t, raw, casts) == Failure(Unsupported(t.text))
  {
  }

  /** The outcome of the dispatch depends on the raw value and on the kind of
      the type together with whether it is `time.Duration` or `time.Time`;
      the rest of the type's name only appears in the unsupported-type error. */
  lemma DispatchByKind<V>(t1: GoType, t2: GoType, raw: V, casts: Casts<V>)
    requires t1.kind == t2.kind && IsDuration(t1) == IsDuration(t2) && IsTime(t1) == IsTime(t2)
    ensures Supported(t1) ==> Coerce(t1, raw, casts) == Coerce(t2, raw, casts)
    ensures !Supported(t1) ==> !Supported(t2)
  {
  }

  // ---------------------------------------------------------- the whole pass

  /** The pass stops at the first failing field: if field `k` fails and every
      earlier field succeeds, its error is the one returned and fields from
      `k` on are exactly as they were. */
  lemma FirstErrorWins<V>(fs: seq<Field>, k: nat, tree: Tree<V>, casts: Casts<V>)
    requires k < |fs| && BindField(fs[k], tree, casts).Failure?
    requires forall j :: 0 <= j < k ==> BindField(fs[j], tree, casts).Success?
    ensures BindFields(fs, tree, casts).err == Some(BindField(fs[k], tree, casts).error)
    ensures BindFields(fs, tree, casts).fields[k..] == fs[k..]
    ensures forall j :: 0 <= j < k ==> BindFields(fs, tree, casts).fields[j] == BindField(fs[j], tree, casts).value
  {
    var m := FirstFailure(fs, tree, casts);
    assert m == k;
  }

  /** A required path missing from the tree always fails the pass; the
      error names that path unless an earlier field failed first. */
  lemma RequiredAbsentFailsPass<V>(fs: seq<Field>, k: nat, p: string, tree: Tree<V>, casts: Casts<V>)
    requires k < |fs| && ValidPath(p) && p !in tree
    requires TagKey in fs[k].tags && fs[k].tags[TagKey] == Format(FieldTag(p, true))
    ensures BindFields(fs, tree, casts).err.Some?
    ensures (forall j :: 0 <= j < k ==> BindField(fs[j], tree, casts).Success?) ==>
              BindFields(fs, tree, casts).err == Some(MustBeSet(p))
  {
    RequiredAbsent(fs[k], p, tree, casts);
    if forall j :: 0 <= j < k ==> BindField(fs[j], tree, casts).Success? {
      FirstErrorWins(fs, k, tree, casts);
    }
  }

  /** A record without `conf` tags binds successfully and is left unchanged. */
  lemma NoTagsNoChange<V>(fs: seq<Field>, tree: Tree<V>, casts: Casts<V>)
    requires forall i :: 0 <= i < |fs| ==> TagKey !in fs[i].tags
    ensures BindFields(fs, tree, casts) == BindOutcome(fs, None)
  {
    var r := BindFields(fs, tree, casts);
    assert forall i :: 0 <= i < |fs| ==> r.fields[i] == fs[i];
  }

  /** On success every tagged field has a well-formed tag; one whose path is
      present holds the coerced tree value, one whose path is absent is
      optional and unchanged; untagged fields are unchanged. */
  lemma SuccessGuarantee<V>(fs: seq<Field>, tree: Tree<V>, casts: Casts<V>)
    requires BindFields(fs, tree, casts).err.None?
    ensures forall i :: 0 <= i < |fs| && TagKey !in fs[i].tags ==>
              BindFields(fs, tree, casts).fields[i] == fs[i]
    ensures forall i :: 0 <= i < |fs| && TagKey in fs[i].tags ==>
              && ParseTag(fs[i].tags[TagKey]).Success?
              && var t := ParseTag(fs[i].tags[TagKey]).value;
                 && (t.tag in tree ==>
                       && Coerce(fs[i].typ, tree[t.tag], casts).Success?
                       && BindFields(fs, tree, casts).fields[i]
                          == fs[i].(value := Coerce(fs[i].typ, tree[t.tag], casts).value))
                 && (t.tag !in tree ==> !t.req && BindFields(fs, tree, casts).fields[i] == fs[i])
  {
  }

  /** Running the pass again over its own output reproduces the same record
      and the same error: written values are re-derived identically and the
      same field fails again. */
  lemma PassIdempotent<V>(fs: seq<Field>, tree: Tree<V>, casts: Casts<V>)
    ensures BindFields(BindFields(fs, tree, casts).fields, tree, casts) == BindFields(fs, tree, casts)
  {
    var step := Step(tree, casts);
    forall f | step(f).Success?
      ensures step(step(f).value) == step(f)
    {
      BindFieldIdempotent(f, tree, casts);
    }
    Fold.RunIdempotent(step, fs);
  }

  /** `LoadConf` on a non-empty path, a loadable file and a pointer to a
      struct writes the pass's record through the pointer and returns the
      pass's error. */
  lemma LoadConfRunsPass<V>(fs: seq<Field>, conf: string, loadFile: string -> Result<Tree<V>, string>, casts: Casts<V>)
    requires conf != "" && loadFile(conf).Success?
    ensures var out := BindFields(fs, loadFile(conf).value, casts);
            LoadConf(PointerTo(StructValue(fs)), conf, loadFile, casts)
            == Loaded(PointerTo(StructValue(out.fields)), out.err)
  {
  }

  /** A target that is not a pointer to a struct is rejected untouched, but
      only after the file has loaded: a load error is reported first. */
  lemma LoadBeforeTypeCheck<V>(cf: Arg, conf: string, loadFile: string -> Result<Tree<V>, string>, casts: Casts<V>)
    requires conf != "" && !(cf.PointerTo? && cf.target.StructValue?)
    ensures loadFile(conf).Failure? ==> LoadConf(cf, conf, loadFile, casts).err == Some(LoadFailed(loadFile(conf).error))
    ensures loadFile(conf).Success? ==> LoadConf(cf, conf, loadFile, casts) == Loaded(cf, Some(NotPointerToStruct))
  {
  }
}
