/**
 Type descriptors: what reflection tells the mapping and conf packages about a Go type, for one fixed tag key.
 */
module Types {
  /** Kinds of scalar types. `bits` is 0 for int and uint. A duration is an int64 with a type of its own. */
  datatype Kind = KBool | KInt(bits: nat) | KUint(bits: nat) | KFloat64 | KString | KDuration

  /** A struct tag: none at all, one that lacks the tag key, or the text found under the tag key. */
  datatype Tag = Untagged | OtherKeys | Tagged(text: string)

  datatype Field = Field(name: string, exported: bool, embedded: bool, tag: Tag, tp: Type)

  datatype Type =
    | Scalar(kind: Kind)
    | Struct(fields: seq<Field>)
    | SliceOf(elem: Type)
    | ArrayOf(elem: Type)
    | MapOf(elem: Type)
    | PtrTo(elem: Type)
    | Channel

  /** `Deref`. */
  function Deref(tp: Type): (r: Type)
    ensures !r.PtrTo?
    ensures r == tp || r < tp
  {
    if tp.PtrTo? then Deref(tp.elem) else tp
  }
}
