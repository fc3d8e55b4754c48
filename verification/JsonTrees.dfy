// The trees that PyYAML hands to reference/helm-parity-check.py.  Key order of a mapping is not
// part of a tree, as it is not part of Python's dict equality.
module JsonTrees {

  datatype Json =
    | Null
    | Bool(b: bool)
    | Int(i: int)
    | Float(x: real)
    | Str(s: string)
    | Arr(items: seq<Json>)
    | Obj(fields: map<string, Json>)

  // type(value), as far as it separates two trees.
  datatype Tag = NoneType | BoolType | IntType | FloatType | StrType | ListType | DictType

  function TagOf(j: Json): Tag {
    match j
    case Null => NoneType
    case Bool(_) => BoolType
    case Int(_) => IntType
    case Float(_) => FloatType
    case Str(_) => StrType
    case Arr(_) => ListType
    case Obj(_) => DictType
  }

}
