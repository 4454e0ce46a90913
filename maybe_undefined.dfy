/** `MaybeUndefined<T>`: a field of an update request that is either left out
    (`Undefined`), explicitly cleared (`Null`) or set (`Value`). */
module MaybeUndefined {
  import opened Wrappers

  datatype MaybeUndefined<T> = Undefined | Null | Value(value: T)

  /** `is_undefined`: only `Undefined` is undefined. */
  predicate IsUndefined<T>(m: MaybeUndefined<T>)
    ensures IsUndefined(m) <==> ToOptionOption(m).None?
  {
    m.Undefined?
  }

  /** `is_defined`: the exact negation of `is_undefined`. */
  predicate IsDefined<T>(m: MaybeUndefined<T>)
    ensures IsDefined(m) <==> !IsUndefined(m)
    ensures IsDefined(m) <==> ToOptionOption(m).Some?
  {
    !m.Undefined?
  }

  /** `unwrap_or`: the carried value, or the fallback for both `Undefined` and `Null`. */
  function UnwrapOr<T>(m: MaybeUndefined<T>, t: T): (r: T)
    ensures m.Value? ==> r == m.value
    ensures !m.Value? ==> r == t
  {
    match m
    case Value(v) => v
    case _ => t
  }

  /** `From<MaybeUndefined<T>> for Option<Option<T>>`. */
  function ToOptionOption<T>(m: MaybeUndefined<T>): (r: Option<Option<T>>)
    ensures r.None? <==> m.Undefined?
    ensures r == Some(None) <==> m.Null?
    ensures r.Some? && r.value.Some? <==> m.Value?
    ensures m.Value? ==> r.value.value == m.value
  {
    match m
    case Undefined => None
    case Null => Some(None)
    case Value(v) => Some(Some(v))
  }

  /** The inverse of the conversion: the three shapes of `Option<Option<T>>` back to the three variants. */
  function FromOptionOption<T>(o: Option<Option<T>>): (m: MaybeUndefined<T>)
  {
    match o
    case None => Undefined
    case Some(None) => Null
    case Some(Some(v)) => Value(v)
  }

  lemma FromAfterTo<T>(m: MaybeUndefined<T>)
    ensures FromOptionOption(ToOptionOption(m)) == m
  {
  }

  lemma ToAfterFrom<T>(o: Option<Option<T>>)
    ensures ToOptionOption(FromOptionOption(o)) == o
  {
  }

  /** The conversion loses nothing: distinct values convert to distinct options. */
  lemma ToOptionOptionInjective<T>(a: MaybeUndefined<T>, b: MaybeUndefined<T>)
    requires ToOptionOption(a) == ToOptionOption(b)
    ensures a == b
  {
    FromAfterTo(a);
    FromAfterTo(b);
  }

  /** `transpose` on a `MaybeUndefined<Result<T, E>>`. */
  function Transpose<T, E>(m: MaybeUndefined<Result<T, E>>): (r: Result<MaybeUndefined<T>, E>)
    ensures r.Err? <==> m.Value? && m.value.Err?
    ensures r.Err? ==> r.error == m.value.error
    ensures m.Undefined? ==> r == Ok(Undefined)
    ensures m.Null? ==> r == Ok(Null)
    ensures m.Value? && m.value.Ok? ==> r == Ok(Value(m.value.value))
  {
    match m
    case Undefined => Ok(Undefined)
    case Null => Ok(Null)
    case Value(Ok(v)) => Ok(Value(v))
    case Value(Err(e)) => Err(e)
  }

  /** Wraps every carried value in `Ok`; `Transpose` undoes it. */
  function MapOk<T, E>(m: MaybeUndefined<T>): MaybeUndefined<Result<T, E>>
  {
    match m
    case Undefined => Undefined
    case Null => Null
    case Value(v) => Value(Ok(v))
  }

  lemma TransposeOfMapOk<T, E>(m: MaybeUndefined<T>)
    ensures Transpose(MapOk<T, E>(m)) == Ok(m)
  {
  }

  /** What `Serialize` hands to the serializer: the value itself for `Value`,
      `serialize_none` for both `Undefined` and `Null`. */
  function Serialize<T>(m: MaybeUndefined<T>): (o: Option<T>)
    ensures o.Some? <==> m.Value?
    ensures o.Some? ==> o.value == m.value
  {
    match m
    case Value(v) => Some(v)
    case _ => None
  }

  /** `Deserialize` goes through `Option<T>`: a missing or null input is `Null`. */
  function Deserialize<T>(o: Option<T>): (m: MaybeUndefined<T>)
    ensures !m.Undefined?
    ensures m.Null? <==> o.None?
    ensures o.Some? ==> m == Value(o.value)
  {
    match o
    case Some(v) => Value(v)
    case None => Null
  }

  /** The serialized form cannot tell `Undefined` from `Null`. */
  lemma SerializeForgetsUndefined<T>()
    ensures Serialize<T>(Undefined) == Serialize<T>(Null)
  {
  }

  /** Round trip: `Null` and `Value(v)` come back as they were, `Undefined` comes back as `Null`. */
  lemma DeserializeAfterSerialize<T>(m: MaybeUndefined<T>)
    ensures Deserialize(Serialize(m)) == (if m.Undefined? then Null else m)
  {
  }

  /** The other round trip loses nothing. */
  lemma SerializeAfterDeserialize<T>(o: Option<T>)
    ensures Serialize(Deserialize(o)) == o
  {
  }
}
