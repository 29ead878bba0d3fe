/** The coercion library the binder calls (`ToBoolE`, `ToInt64E`, ...). Its
    conversions are not modelled: each is an opaque total function from a raw
    tree value of type V to the typed result or the library's error text. */
module Cast {
  import opened Wrappers
  import opened Reflect

  datatype Casts<-V> = Casts(
    toBool: V -> Result<bool, string>,
    toInt64: V -> Result<int64, string>,
    toDuration: V -> Result<int64, string>,
    toUint64: V -> Result<uint64, string>,
    toFloat64: V -> Result<FloatBits, string>,
    toString: V -> Result<string, string>,
    toStringSlice: V -> Result<seq<string>, string>,
    toTime: V -> Result<Instant, string>)
}
