/** The BSON element type codes used by the `$type` query operator (section
    "Specification" of the BSON specification, version 1.1), and the `TimeStamp`
    newtype. */
module Types {
  import Bson

  datatype Type =
    | Double | String | Object | Array | BinaryData | Undefined | ObjectId | Boolean
    | Date | Null | Regex | DBPointer | JavaScript | Symbol | JavaScriptWithScope
    | I32 | Timestamp | I64 | Decimal128

  /** The enum discriminant, i.e. `t as i32`. */
  function Code(t: Type): (c: Bson.Int32)
    ensures 1 <= c <= 19
  {
    match t
    case Double => 1
    case String => 2
    case Object => 3
    case Array => 4
    case BinaryData => 5
    case Undefined => 6
    case ObjectId => 7
    case Boolean => 8
    case Date => 9
    case Null => 10
    case Regex => 11
    case DBPointer => 12
    case JavaScript => 13
    case Symbol => 14
    case JavaScriptWithScope => 15
    case I32 => 16
    case Timestamp => 17
    case I64 => 18
    case Decimal128 => 19
  }

  /** The variants in declaration order. */
  const DeclarationOrder: seq<Type> := [
    Double, String, Object, Array, BinaryData, Undefined, ObjectId, Boolean, Date, Null,
    Regex, DBPointer, JavaScript, Symbol, JavaScriptWithScope, I32, Timestamp, I64, Decimal128
  ]

  /** The codes run 1..19 in declaration order, every variant is listed, and no
      two variants share a code. */
  lemma CodesFollowDeclarationOrder()
    ensures |DeclarationOrder| == 19
    ensures forall i :: 0 <= i < 19 ==> Code(DeclarationOrder[i]) as int == i + 1
    ensures forall t: Type :: t in DeclarationOrder
    ensures forall t1: Type, t2: Type :: Code(t1) == Code(t2) ==> t1 == t2
  {
    forall t: Type ensures t in DeclarationOrder {
      assert DeclarationOrder[Code(t) as int - 1] == t;
    }
  }

  /** `TimeStamp(pub i64)`. */
  datatype TimeStamp = TimeStamp(value: Bson.Int64)
}
