/** The type table of the IR (ir/types.rs): the part the passes, the verifier and the layouts read. */
module Types {

  datatype Option<+T> = None | Some(value: T)

  datatype Type =
    | I8 | U8 | I16 | U16 | I32 | U32 | I64 | U64
    | F32 | F64 | Bool
    | Simd                                    // any of the 128-bit vector types
    | Array(elem: Type, len: Option<nat>)
    | Buffer(elem: Type)
    | Tensor(elem: Type, dims: seq<string>)
    | Struct(name: string)                    // also typed dictionaries and named tuples
    | Enum(name: string)
    | Tuple(items: seq<Type>)
    | Pointer(elem: Type)                     // also nullable pointers
    | Optional(elem: Type)
    | List(elem: Type)
    | FnPointer                               // also closures
    | Refined(elem: Type, predicate_: string)
    | Literal(elem: Type, val: int)
    | Str
    | Unknown

  /** Bit width of a scalar; floats report the width of their bit pattern. */
  function IntBitWidth(t: Type): Option<nat> {
    match t
    case I8 | U8 => Some(8)
    case I16 | U16 => Some(16)
    case I32 | U32 | F32 => Some(32)
    case I64 | U64 | F64 => Some(64)
    case Bool => Some(1)
    case Refined(inner, _) => IntBitWidth(inner)
    case Literal(inner, _) => IntBitWidth(inner)
    case _ => None
  }

  predicate IsSigned(t: Type) {
    match t
    case I8 | I16 | I32 | I64 => true
    case Refined(inner, _) => IsSigned(inner)
    case Literal(inner, _) => IsSigned(inner)
    case _ => false
  }

  predicate IsTensor(t: Type) {
    match t
    case Tensor(_, _) => true
    case Refined(inner, _) => IsTensor(inner)
    case Literal(inner, _) => IsTensor(inner)
    case _ => false
  }
}
