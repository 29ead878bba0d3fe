/** The slice of Go reflection the binder inspects: the kind and printed name
    of a field's type, the field's struct tags and current value, and the
    shape of the argument handed to the binder. Values are abstract: the
    model records which Go type a stored value has, not its bit layout. */
module Reflect {

  type int64 = x: int | -0x8000_0000_0000_0000 <= x < 0x8000_0000_0000_0000
  type uint64 = x: int | 0 <= x < 0x1_0000_0000_0000_0000

  /** `reflect.Kind`; `Slice` carries the kind of its element type. */
  datatype Kind =
    | Invalid | Bool
    | Int | Int8 | Int16 | Int32 | Int64
    | Uint | Uint8 | Uint16 | Uint32 | Uint64 | Uintptr
    | Float32 | Float64 | Complex64 | Complex128
    | Array | Chan | Func | Interface | Map | Pointer
    | Slice(elem: Kind) | String | Struct | UnsafePointer

  /** A Go type as reflection shows it: `Type.PkgPath()`, `Type.Name()`,
      `Type.String()` and `Type.Kind()`. Two named types are identical when
      their package path and name agree; the printed text alone does not
      identify a type, since packages with different paths may share a name. */
  datatype GoType = GoType(pkgPath: string, name: string, text: string, kind: Kind)

  const TimePackage := "time"

  /** The dynamic type is exactly the standard `time.Duration` (the type
      switch case). */
  predicate IsDuration(t: GoType) {
    t.pkgPath == TimePackage && t.name == "Duration"
  }

  /** The dynamic type is exactly the standard `time.Time` (the type switch
      case). */
  predicate IsTime(t: GoType) {
    t.pkgPath == TimePackage && t.name == "Time"
  }

  /** The kinds listed in the signed-integer case of the dispatch. */
  predicate IsSigned(k: Kind) {
    k.Int? || k.Int8? || k.Int16? || k.Int32? || k.Int64?
  }

  /** The kinds listed in the unsigned-integer case; `Uintptr` is not one. */
  predicate IsUnsigned(k: Kind) {
    k.Uint? || k.Uint8? || k.Uint16? || k.Uint32? || k.Uint64?
  }

  predicate IsFloat(k: Kind) {
    k.Float32? || k.Float64?
  }

  /** A float64 kept as its IEEE-754 bit pattern, never inspected. */
  datatype FloatBits = FloatBits(bits: uint64)

  /** A `time.Time`, reduced to its instant in nanoseconds since the epoch. */
  datatype Instant = Instant(unixNano: int)

  /** A value stored in a struct field. `Opaque` stands for the value of any
      field the binder never writes. */
  datatype Value =
    | BoolV(b: bool)
    | IntV(i: int64)
    | UintV(u: uint64)
    | FloatV(f: FloatBits)
    | StringV(s: string)
    | StringsV(ss: seq<string>)
    | TimeV(t: Instant)
    | Opaque(repr: string)

  /** One struct field: its name, its struct tags (key to value, as
      `StructTag.Lookup` reads them), its type and its current value. */
  datatype Field = Field(name: string, tags: map<string, string>, typ: GoType, value: Value)

  /** What `reflect.ValueOf` sees of the binder's `interface{}` argument:
      nil, a pointer (a nil pointer points at `NilArg`), a struct held by
      value, or a value of any other type. */
  datatype Arg =
    | NilArg
    | PointerTo(target: Arg)
    | StructValue(fields: seq<Field>)
    | OtherValue(typ: GoType)
}
