/** JSON values as the plan crate handles them. */
module Json {
  import opened Wrappers
  import opened Text

  /** A number is its canonical text: two equal numbers print alike, and the program only
      ever compares, prints or reads a number as an unsigned integer.  An object lists its
      fields in the order the underlying map yields them. */
  datatype Json =
    | Null
    | Bool(flag: bool)
    | Number(numeral: string)
    | Str(text: string)
    | Arr(items: seq<Json>)
    | Obj(fields: seq<Field>)

  datatype Field = Field(name: string, value: Json)

  function Get(fields: seq<Field>, name: string): Option<Json> {
    if fields == [] then None
    else if fields[0].name == name then Some(fields[0].value)
    else Get(fields[1..], name)
  }

  /** Insertion into a key-ordered map: an existing key keeps its place and takes the value. */
  function Insert(fields: seq<Field>, name: string, value: Json): seq<Field> {
    if fields == [] then [Field(name, value)]
    else if fields[0].name == name then [Field(name, value)] + fields[1..]
    else if Less(name, fields[0].name) then [Field(name, value)] + fields
    else [fields[0]] + Insert(fields[1..], name, value)
  }

  lemma {:induction false} GetAfterInsert(fields: seq<Field>, name: string, value: Json, other: string)
    ensures Get(Insert(fields, name, value), other) ==
            if other == name then Some(value) else Get(fields, other)
  {
    if fields != [] && fields[0].name != name && !Less(name, fields[0].name) {
      GetAfterInsert(fields[1..], name, value, other);
      assert Insert(fields, name, value)[1..] == Insert(fields[1..], name, value);
    } else if fields != [] {
      assert Insert(fields, name, value)[1..] == if fields[0].name == name then fields[1..] else fields;
    }
  }

  /** How a value reads inside a larger string; composites do not. */
  function ScalarText(value: Json): Option<string> {
    match value
    case Str(s) => Some(s)
    case Number(n) => Some(n)
    case Bool(b) => Some(if b then "true" else "false")
    case Null => Some("null")
    case _ => None
  }
}
