/** The binder of xtoml.go: `checkType` and the field-binding pass of
    `LoadConf`. The TOML tree is a finite map from dotted path to an opaque
    raw value of type V (absent path = `Get` returning nil); the file loader
    and the coercions are parameters. */
module Xtoml {
  import opened Wrappers
  import opened Errors
  import opened Reflect
  import opened Cast
  import opened FieldTags
  import Fold

  /** The struct tag key the binder looks up. */
  const TagKey := "conf"

  type Tree<V> = map<string, V>

  /** What `checkType` records in the parser: the struct reached through the
      pointer (its fields) and its field count. */
  datatype Parser = Parser(fields: seq<Field>, nf: nat)

  /** The record after a pass (written through the pointer) and the error. */
  datatype BindOutcome = BindOutcome(fields: seq<Field>, err: Option<Error>)

  /** What `LoadConf` leaves behind: its argument, possibly mutated, and the
      returned error. */
  datatype Loaded = Loaded(arg: Arg, err: Option<Error>)

  /** `parser.checkType`: accept only a pointer to a struct. */
  function CheckType(i: Arg): (r: Result<Parser, Error>)
    ensures r.Success? <==> i.PointerTo? && i.target.StructValue?
    ensures r.Success? ==> r.value.fields == i.target.fields && r.value.nf == |i.target.fields|
    ensures r.Failure? ==> r.error == NotPointerToStruct
  {
    if i.PointerTo? && i.target.StructValue? then
      Success(Parser(i.target.fields, |i.target.fields|))
    else
      Failure(NotPointerToStruct)
  }

  /** The field types the dispatch has a coercion for. */
  predicate Supported(t: GoType) {
    || t.kind.Bool? || IsSigned(t.kind) || IsUnsigned(t.kind) || IsFloat(t.kind)
    || t.kind.String? || t.kind == Slice(String) || (t.kind.Struct? && IsTime(t))
  }

  /** A stored value has the shape a field of type `t` holds after a write. */
  predicate Fits(t: GoType, v: Value) {
    if t.kind.Bool? then v.BoolV?
    else if IsSigned(t.kind) then v.IntV?
    else if IsUnsigned(t.kind) then v.UintV?
    else if IsFloat(t.kind) then v.FloatV?
    else if t.kind.String? then v.StringV?
    else if t.kind == Slice(String) then v.StringsV?
    else if t.kind.Struct? && IsTime(t) then v.TimeV?
    else false
  }

  /** A coercion's outcome, its error text wrapped as a cast error. */
  function Lift<T>(c: Result<T, string>, wrap: T -> Value): Result<Value, Error>
  {
    match c
    case Success(x) => Success(wrap(x))
    case Failure(m) => Failure(CastFailed(m))
  }

  /** The kind `switch` of `LoadConf`: pick the coercion for the field's type
      and convert the raw tree value with it. */
  function Coerce<V>(t: GoType, raw: V, casts: Casts<V>): (r: Result<Value, Error>)
    ensures r.Success? ==> Fits(t, r.value)
    ensures r.Failure? && r.error.Unsupported? <==> !Supported(t)
    ensures r.Failure? ==> r.error == Unsupported(t.text) || r.error.CastFailed?
  {
    match t.kind
    case Bool => Lift(casts.toBool(raw), b => BoolV(b))
    case Int | Int8 | Int16 | Int32 | Int64 =>
      if IsDuration(t) then Lift(casts.toDuration(raw), d => IntV(d))
      else Lift(casts.toInt64(raw), i => IntV(i))
    case Uint | Uint8 | Uint16 | Uint32 | Uint64 => Lift(casts.toUint64(raw), u => UintV(u))
    case Float32 | Float64 => Lift(casts.toFloat64(raw), f => FloatV(f))
    case String => Lift(casts.toString(raw), s => StringV(s))
    case Slice(elem) =>
      if elem == String then Lift(casts.toStringSlice(raw), ss => StringsV(ss))
      else Failure(Unsupported(t.text))
    case Struct =>
      if IsTime(t) then Lift(casts.toTime(raw), tm => TimeV(tm))
      else Failure(Unsupported(t.text))
    case _ => Failure(Unsupported(t.text))
  }

  /** One iteration of the field loop: skip an untagged field, parse the tag,
      enforce `required` for an absent path, skip an absent optional path,
      and otherwise coerce the tree value and write it into the field. */
  function BindField<V>(f: Field, tree: Tree<V>, casts: Casts<V>): (r: Result<Field, Error>)
    ensures TagKey !in f.tags ==> r == Success(f)
    ensures r.Success? ==> r.value == f.(value := r.value.value)
    ensures r.Success? && r.value != f ==> TagKey in f.tags && Fits(f.typ, r.value.value)
  {
    if TagKey !in f.tags then
      Success(f)
    else
      var t :- ParseTag(f.tags[TagKey]);
      if t.GetTag() !in tree then
        if t.IsRequired() then Failure(MustBeSet(t.GetTag())) else Success(f)
      else
        var v :- Coerce(f.typ, tree[t.GetTag()], casts);
        Success(f.(value := v))
  }

  /** One iteration of the field loop as a step of the pass. */
  function Step<V>(tree: Tree<V>, casts: Casts<V>): Field -> Result<Field, Error>
  {
    f => BindField(f, tree, casts)
  }

  /** Index of the first field whose iteration fails, or `|fs|` if none does:
      the point where the loop stops. */
  function FirstFailure<V>(fs: seq<Field>, tree: Tree<V>, casts: Casts<V>): (k: nat)
    ensures k <= |fs|
    ensures forall i :: 0 <= i < k ==> BindField(fs[i], tree, casts).Success?
    ensures k < |fs| ==> BindField(fs[k], tree, casts).Failure?
  {
    Fold.FirstFailure(Step(tree, casts), fs)
  }

  /** The pass over the struct's fields. Fields before the first failure hold
      their written values, the failing field and all later ones are left as
      they were (no rollback, no further work), and the error is the failing
      field's; with no failure every field is processed and nil returned. */
  function BindFields<V>(fs: seq<Field>, tree: Tree<V>, casts: Casts<V>): (r: BindOutcome)
    ensures |r.fields| == |fs|
    ensures var k := FirstFailure(fs, tree, casts);
            && (forall i :: 0 <= i < k ==> r.fields[i] == BindField(fs[i], tree, casts).value)
            && r.fields[k..] == fs[k..]
            && (r.err.None? <==> k == |fs|)
            && (k < |fs| ==> r.err == Some(BindField(fs[k], tree, casts).error))
  {
    var o := Fold.Run(Step(tree, casts), fs);
    BindOutcome(o.items, o.err)
  }

  /** The field loop as the source writes it: an index running over the
      struct's fields, each write made in place, returning at the first
      error. It computes exactly the fold `BindFields`. */
  method BindLoop<V>(p: Parser, tree: Tree<V>, casts: Casts<V>) returns (fields: seq<Field>, err: Option<Error>)
    requires p.nf == |p.fields|
    ensures BindOutcome(fields, err) == BindFields(p.fields, tree, casts)
  {
    fields, err := Fold.RunLoop(Step(tree, casts), p.fields, p.nf);
  }

  /** `LoadConf`: reject an empty path, load the file, check the target,
      then run the field loop over the struct behind the pointer. */
  function LoadConf<V>(cf: Arg, conf: string, loadFile: string -> Result<Tree<V>, string>, casts: Casts<V>): (r: Loaded)
    ensures conf == "" ==> r == Loaded(cf, Some(ConfigNotSet))
    ensures conf != "" && loadFile(conf).Failure? ==> r == Loaded(cf, Some(LoadFailed(loadFile(conf).error)))
    ensures conf != "" && loadFile(conf).Success? && CheckType(cf).Failure? ==> r == Loaded(cf, Some(NotPointerToStruct))
    ensures r.err.None? ==> conf != "" && cf.PointerTo? && cf.target.StructValue?
    ensures r.arg != cf ==> cf.PointerTo? && cf.target.StructValue?
                            && r.arg.PointerTo? && r.arg.target.StructValue?
                            && |r.arg.target.fields| == |cf.target.fields|
  {
    if conf == "" then
      Loaded(cf, Some(ConfigNotSet))
    else
      match loadFile(conf)
      case Failure(msg) => Loaded(cf, Some(LoadFailed(msg)))
      case Success(tree) =>
        match CheckType(cf)
        case Failure(e) => Loaded(cf, Some(e))
        case Success(p) =>
          var out := BindFields(p.fields, tree, casts);
          Loaded(PointerTo(StructValue(out.fields)), out.err)
  }
}
